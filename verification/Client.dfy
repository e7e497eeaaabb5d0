/** The client's loops over pages (query.go, scan.go, collection.go, iter.go),
    against one-line specifications. `PageOf(v, start, limit)` is what the backend
    answers on an unchanged table (QueryScan.Query, QueryScan.Scan). The loops of Query
    and Scan themselves are in EndToEnd. */
module Client {
  import opened Base
  import opened Values
  import opened Paging

  // ---- Query and Scan: the first n ----

  /** How many are still wanted; no limit is None. */
  type Left = Option<nat>

  function Minus(left: Left, n: nat): Left
    requires left.Some? ==> n <= left.value
  {
    match left case None => None case Some(m) => Some(m - n)
  }

  /** Going through the entries one by one: the decoded ones that pass the filter, up
      to as many as are wanted, or an error before that. */
  function Hits<T>(cands: seq<Ref>, filter: Item -> Result<bool>, decode: Item -> Result<T>, left: Left): Result<seq<T>> {
    if cands == [] || left == Some(0) then Ok([])
    else
      match filter(cands[0].item)
      case Err => Err
      case Ok(false) => Hits(cands[1..], filter, decode, left)
      case Ok(true) =>
        match decode(cands[0].item)
        case Err => Err
        case Ok(x) => Behind([x], Hits(cands[1..], filter, decode, Minus(left, 1)))
  }

  /** With a limit of n they are the first n of all. */
  lemma {:induction false} HitsTake<T>(cands: seq<Ref>, filter: Item -> Result<bool>, decode: Item -> Result<T>, n: nat)
    requires Hits(cands, filter, decode, None).Ok?
    ensures var all := Hits(cands, filter, decode, None).value;
      Hits(cands, filter, decode, Some(n)) == Ok(if n < |all| then all[..n] else all)
  {
    if cands != [] && n > 0 {
      var all := Hits(cands, filter, decode, None).value;
      if filter(cands[0].item) == Ok(false) {
        HitsTake(cands[1..], filter, decode, n);
      } else {
        HitsTake(cands[1..], filter, decode, n - 1);
        var x := decode(cands[0].item).value;
        var more := Hits(cands[1..], filter, decode, None).value;
        assert all == [x] + more;
        if n < |all| {
          assert all[..n] == [x] + more[..n - 1];
        }
      }
    }
  }

  /** All hits are the decoded items that pass the filter. */
  lemma {:induction false} AllHits<T>(cands: seq<Ref>, filter: Item -> Result<bool>, decode: Item -> Result<T>)
    ensures Hits(cands, filter, decode, None) == match Filtered(cands, filter)
      case Err => Err
      case Ok(items) => DecodeAll(items, decode)
  {
    if cands != [] {
      AllHits(cands[1..], filter, decode);
      var rest := Filtered(cands[1..], filter);
      if filter(cands[0].item).Ok? && rest.Ok? {
        if filter(cands[0].item).value {
          assert ([cands[0].item] + rest.value)[1..] == rest.value;
        } else {
          assert [] + rest.value == rest.value;
        }
      }
    }
  }

  /** An entry that ends the loop with an error. */
  predicate Troubled<T>(item: Item, filter: Item -> Result<bool>, decode: Item -> Result<T>) {
    filter(item).Err? || (filter(item) == Ok(true) && decode(item).Err?)
  }

  predicate Passes(item: Item, filter: Item -> Result<bool>) { filter(item) == Ok(true) }

  /** The entries that pass the filter. */
  function PassingOf(cands: seq<Ref>, filter: Item -> Result<bool>): seq<Ref> { Candidates(cands, item => Passes(item, filter)) }

  lemma PassingStep(cands: seq<Ref>, filter: Item -> Result<bool>, i: nat)
    requires i < |cands|
    ensures PassingOf(cands, filter) == (if Passes(cands[0].item, filter) then [cands[0]] else []) + PassingOf(cands[1..], filter)
    ensures |PassingOf(cands[..i + 1], filter)| == (if Passes(cands[0].item, filter) then 1 else 0) + |PassingOf(cands[1..][..i], filter)|
    ensures PassingOf(cands[..0], filter) == []
  {
    assert cands[..i + 1][1..] == cands[1..][..i];
  }

  /** Entry i is in trouble, and fewer entries pass before it than are wanted. */
  predicate TroubleAt<T>(cands: seq<Ref>, filter: Item -> Result<bool>, decode: Item -> Result<T>, left: Left, i: nat)
    requires i < |cands|
  {
    Troubled(cands[i].item, filter, decode) && (left.Some? ==> |PassingOf(cands[..i], filter)| < left.value)
  }

  lemma TroubleStep<T>(cands: seq<Ref>, filter: Item -> Result<bool>, decode: Item -> Result<T>, left: Left, i: nat)
    requires 0 < i < |cands| && filter(cands[0].item).Ok?
    requires left.Some? && filter(cands[0].item).value ==> left.value > 0
    ensures TroubleAt(cands, filter, decode, left, i) <==>
      TroubleAt(cands[1..], filter, decode, if filter(cands[0].item).value then Minus(left, 1) else left, i - 1)
  {
    PassingStep(cands, filter, i - 1);
    assert cands[i] == cands[1..][i - 1];
  }

  /** The error comes out exactly when an entry is in trouble before enough others have
      passed. */
  lemma {:induction false} HitsErrIff<T>(cands: seq<Ref>, filter: Item -> Result<bool>, decode: Item -> Result<T>, left: Left)
    ensures Hits(cands, filter, decode, left).Err? <==> exists i: nat :: i < |cands| && TroubleAt(cands, filter, decode, left, i)
    decreases |cands|
  {
    hide PassingOf;
    if cands != [] && left != Some(0) {
      PassingStep(cands, filter, 0);
      var head := filter(cands[0].item);
      assert TroubleAt(cands, filter, decode, left, 0) <==> Troubled(cands[0].item, filter, decode);
      if !Troubled(cands[0].item, filter, decode) {
        var next := if head.value then Minus(left, 1) else left;
        HitsErrIff(cands[1..], filter, decode, next);
        forall i: nat | 0 < i < |cands|
          ensures TroubleAt(cands, filter, decode, left, i) <==> TroubleAt(cands[1..], filter, decode, next, i - 1)
        {
          TroubleStep(cands, filter, decode, left, i);
        }
        hide TroubleAt;
        if i: nat :| i < |cands[1..]| && TroubleAt(cands[1..], filter, decode, next, i) {
          assert TroubleAt(cands, filter, decode, left, i + 1);
        }
      }
    }
  }

  /** Otherwise the result is the first entries that pass, decoded. */
  lemma {:induction false} HitsAreFirst<T>(cands: seq<Ref>, filter: Item -> Result<bool>, decode: Item -> Result<T>, left: Left)
    requires Hits(cands, filter, decode, left).Ok?
    ensures var (xs, sel) := (Hits(cands, filter, decode, left).value, PassingOf(cands, filter));
      && |xs| == (if left.Some? && left.value < |sel| then left.value else |sel|)
      && forall i :: 0 <= i < |xs| ==> decode(sel[i].item) == Ok(xs[i])
    decreases |cands|
  {
    hide PassingOf;
    if cands == [] {
      assert PassingOf(cands, filter) == [] by { NothingPasses(filter); }
    } else if left != Some(0) {
      PassingStep(cands, filter, 0);
      HitsAreFirst(cands[1..], filter, decode, if filter(cands[0].item).value then Minus(left, 1) else left);
    }
  }

  lemma NothingPasses(filter: Item -> Result<bool>)
    ensures PassingOf([], filter) == []
  {
  }

  function DecodeAll<T>(items: seq<Item>, decode: Item -> Result<T>): (r: Result<seq<T>>)
    ensures r.Ok? ==> |r.value| == |items|
  {
    if items == [] then Ok([])
    else
      match decode(items[0])
      case Err => Err
      case Ok(x) => Behind([x], DecodeAll(items[1..], decode))
  }

  /** A piece that is no longer than what is wanted is used up whole. */
  lemma {:induction false} HitsOverCut<T>(cut: seq<Ref>, rest: seq<Ref>, filter: Item -> Result<bool>, decode: Item -> Result<T>, left: Left)
    requires left.Some? ==> |cut| <= left.value
    ensures Filtered(cut, filter).Err? ==> Hits(cut + rest, filter, decode, left) == Err
    ensures Filtered(cut, filter).Ok? ==>
      var items := Filtered(cut, filter).value;
      && |items| <= |cut|
      && Hits(cut + rest, filter, decode, left) == (
           match DecodeAll(items, decode)
           case Err => Err
           case Ok(xs) => Behind(xs, Hits(rest, filter, decode, Minus(left, |xs|))))
    decreases |cut|
  {
    FilteredShrinks(cut, filter);
    if cut == [] {
      assert cut + rest == rest;
      BehindNothing(Hits(rest, filter, decode, left));
      assert Minus(left, 0) == left;
    } else {
      assert (cut + rest)[1..] == cut[1..] + rest && (cut + rest)[0] == cut[0];
      var tail := Filtered(cut[1..], filter);
      match filter(cut[0].item)
      case Err =>
      case Ok(false) =>
        HitsOverCut(cut[1..], rest, filter, decode, left);
        if tail.Ok? {
          assert [] + tail.value == tail.value;
        }
      case Ok(true) =>
        HitsOverCut(cut[1..], rest, filter, decode, Minus(left, 1));
        if tail.Ok? && decode(cut[0].item).Ok? {
          HitStep(cut[0].item, tail.value, rest, filter, decode, left);
        }
    }
  }

  lemma HitStep<T>(item: Item, items: seq<Item>, rest: seq<Ref>, filter: Item -> Result<bool>, decode: Item -> Result<T>, left: Left)
    requires decode(item).Ok? && (left.Some? ==> |items| + 1 <= left.value)
    ensures DecodeAll([item] + items, decode) == Behind([decode(item).value], DecodeAll(items, decode))
    ensures DecodeAll(items, decode).Ok? ==>
      var xs := DecodeAll(items, decode).value;
      && Minus(Minus(left, 1), |xs|) == Minus(left, |[decode(item).value] + xs|)
      && Behind([decode(item).value], Behind(xs, Hits(rest, filter, decode, Minus(Minus(left, 1), |xs|))))
           == Behind([decode(item).value] + xs, Hits(rest, filter, decode, Minus(left, |[decode(item).value] + xs|)))
  {
    assert ([item] + items)[1..] == items;
    if DecodeAll(items, decode).Ok? {
      var xs := DecodeAll(items, decode).value;
      BehindTwice([decode(item).value], xs, Hits(rest, filter, decode, Minus(Minus(left, 1), |xs|)));
    }
  }

  lemma NoMoreHits<T>(rest: seq<Ref>, filter: Item -> Result<bool>, decode: Item -> Result<T>, results: seq<T>)
    ensures Behind(results, Hits(rest, filter, decode, Some(0))) == Ok(results)
  {
    assert results + [] == results;
  }

  lemma NothingComing<T>(filter: Item -> Result<bool>, decode: Item -> Result<T>, left: Left, results: seq<T>)
    ensures Behind(results, Hits([], filter, decode, left)) == Ok(results)
  {
    assert results + [] == results;
  }

  /** Unmarshalling the items of a page one by one. */
  method Decode<T>(items: seq<Item>, decode: Item -> Result<T>) returns (r: Result<seq<T>>)
    ensures r == DecodeAll(items, decode)
  {
    var out := [];
    assert items[0..] == items;
    BehindNothing(DecodeAll(items, decode));
    for i := 0 to |items|
      invariant |out| == i && DecodeAll(items, decode) == Behind(out, DecodeAll(items[i..], decode))
    {
      assert items[i..][1..] == items[i + 1..];
      var x := decode(items[i]);
      if x.Err? {
        return Err;
      }
      BehindTwice(out, [x.value], DecodeAll(items[i + 1..], decode));
      out := out + [x.value];
    }
    assert out + [] == out;
    r := Ok(out);
  }

  // ---- Loops whose pages keep their size ----

  function FirstPage(cands: seq<Ref>, size: nat): (cut: seq<Ref>)
    ensures cands != [] ==> cut != []
    ensures |cut| <= |cands| && cut == cands[..|cut|]
  {
    if 0 < size < |cands| then cands[..size] else cands
  }

  /** The entries on the pages before the first page that is an error. */
  function GoodPages(cands: seq<Ref>, filter: Item -> Result<bool>, size: nat): seq<Ref>
    decreases |cands|
  {
    if cands == [] then []
    else
      var cut := FirstPage(cands, size);
      if Filtered(cut, filter).Err? then [] else cut + GoodPages(cands[|cut|..], filter, size)
  }

  /** Those of them that pass the filter. */
  function GoodItems(cands: seq<Ref>, filter: Item -> Result<bool>, size: nat): seq<Item> {
    match Filtered(GoodPages(cands, filter, size), filter) case Ok(items) => items case Err => []
  }

  lemma {:induction false} GoodPagesAreGood(cands: seq<Ref>, filter: Item -> Result<bool>, size: nat)
    ensures Filtered(GoodPages(cands, filter, size), filter).Ok?
    decreases |cands|
  {
    hide Filtered;
    if cands == [] {
      NothingFiltered(filter);
    } else {
      var cut := FirstPage(cands, size);
      NothingFiltered(filter);
      if Filtered(cut, filter).Ok? {
        GoodPagesAreGood(cands[|cut|..], filter, size);
        FilteredConcat(cut, GoodPages(cands[|cut|..], filter, size), filter);
      }
    }
  }

  lemma NothingFiltered(filter: Item -> Result<bool>)
    ensures Filtered([], filter) == Ok([])
  {
  }

  /** A whole number of pages. */
  ghost predicate WholePages(n: nat, size: nat) { exists pages: nat :: n == pages * size }

  lemma OneMore(n: nat, size: nat)
    requires WholePages(n, size)
    ensures WholePages(size + n, size)
  {
    var pages: nat :| n == pages * size;
    assert size + n == (pages + 1) * size;
  }

  /** Some entry of a stretch cannot be filtered. */
  ghost predicate TroubleIn(cands: seq<Ref>, filter: Item -> Result<bool>, from: nat, size: nat) {
    exists i :: from <= i < |cands| && (size > 0 ==> i < from + size) && filter(cands[i].item).Err?
  }

  lemma TroubleLater(cut: seq<Ref>, rest: seq<Ref>, filter: Item -> Result<bool>, from: nat, size: nat)
    requires TroubleIn(rest, filter, from, size)
    ensures TroubleIn(cut + rest, filter, |cut| + from, size)
  {
    var i :| from <= i < |rest| && (size > 0 ==> i < from + size) && filter(rest[i].item).Err?;
    assert (cut + rest)[|cut| + i] == rest[i];
  }

  lemma TroubleHere(cands: seq<Ref>, filter: Item -> Result<bool>, size: nat)
    requires Filtered(FirstPage(cands, size), filter).Err?
    ensures TroubleIn(cands, filter, 0, size)
  {
    var cut := FirstPage(cands, size);
    FirstTrouble(cut, filter);
    hide Filtered;
    var i :| 0 <= i < |cut| && filter(cut[i].item).Err?;
    assert cands[i] == cut[i];
  }

  /** The good pages are the whole pages before the one with the first entry that
      cannot be filtered; without an error they are everything. */
  lemma {:induction false} GoodPagesIff(cands: seq<Ref>, filter: Item -> Result<bool>, size: nat) returns (n: nat)
    ensures n <= |cands| && GoodPages(cands, filter, size) == cands[..n]
    ensures n == |cands| <==> Filtered(cands, filter).Ok?
    ensures Filtered(cands[..n], filter).Ok?
    ensures n < |cands| ==> WholePages(n, size) && TroubleIn(cands, filter, n, size)
    decreases |cands|
  {
    hide Filtered, TroubleIn, WholePages;
    n := 0;
    NothingFiltered(filter);
    assert cands[..0] == [];
    if cands != [] {
      var cut := FirstPage(cands, size);
      var rest := cands[|cut|..];
      assert cands == cut + rest;
      FilteredConcat(cut, rest, filter);
      if Filtered(cut, filter).Err? {
        NoPages(size);
        TroubleHere(cands, filter, size);
      } else {
        var m := GoodPagesIff(rest, filter, size);
        n := |cut| + m;
        assert cands[..n] == cut + rest[..m];
        FilteredConcat(cut, rest[..m], filter);
        if m < |rest| {
          OneMore(m, size);
          TroubleLater(cut, rest, filter, m, size);
        }
      }
    }
  }

  lemma NoPages(size: nat)
    ensures WholePages(0, size)
  {
    assert 0 == 0 * size;
  }

  lemma {:induction false} FirstTrouble(cands: seq<Ref>, filter: Item -> Result<bool>)
    ensures Filtered(cands, filter).Err? <==> exists i :: 0 <= i < |cands| && filter(cands[i].item).Err?
  {
    if cands != [] {
      FirstTrouble(cands[1..], filter);
      assert forall i :: 0 < i < |cands| ==> cands[i] == cands[1..][i - 1];
      if i :| 0 <= i < |cands| && filter(cands[i].item).Err? {
        assert i == 0 || filter(cands[1..][i - 1].item).Err?;
      }
    }
  }

  /** One page of a loop: what has been done so far and what is to come. */
  ghost predicate Halfway(v: View, cands: seq<Ref>, size: nat, done: seq<Ref>, start: Item) {
    && cands == done + Coming(v, start)
    && GoodPages(cands, v.filter, size) == done + GoodPages(Coming(v, start), v.filter, size)
    && Filtered(done, v.filter).Ok?
  }

  lemma AtTheStart(v: View, size: nat)
    ensures Halfway(v, Coming(v, map[]), size, [], map[])
  {
    hide Coming, Filtered, GoodPages;
    NothingFiltered(v.filter);
    assert [] + Coming(v, map[]) == Coming(v, map[]);
    assert [] + GoodPages(Coming(v, map[]), v.filter, size) == GoodPages(Coming(v, map[]), v.filter, size);
  }

  /** The items of the pages done are the first of all good items. */
  lemma DoneIsGood(v: View, cands: seq<Ref>, size: nat, done: seq<Ref>, start: Item) returns (more: seq<Item>)
    requires Halfway(v, cands, size, done, start)
    ensures GoodItems(cands, v.filter, size) == Filtered(done, v.filter).value + more
  {
    hide Filtered, GoodPages, Coming;
    var good := GoodPages(Coming(v, start), v.filter, size);
    GoodPagesAreGood(Coming(v, start), v.filter, size);
    FilteredConcat(done, good, v.filter);
    more := Filtered(good, v.filter).value;
  }

  lemma OnePage(v: View, cands: seq<Ref>, size: nat, done: seq<Ref>, start: Item) returns (next: seq<Ref>)
    requires Resumable(v) && Halfway(v, cands, size, done, start)
    ensures match PageOf(v, start, size)
            case Err =>
              && GoodItems(cands, v.filter, size) == Filtered(done, v.filter).value
              && |GoodPages(cands, v.filter, size)| < |cands|
            case Ok(page) =>
              && Filtered(next, v.filter) == Ok(Filtered(done, v.filter).value + page.items)
              && (if page.last == map[] then
                    && GoodPages(cands, v.filter, size) == cands
                    && GoodItems(cands, v.filter, size) == Filtered(next, v.filter).value
                  else
                    && From(v, page.last) > From(v, start)
                    && Halfway(v, cands, size, next, page.last))
  {
    hide Filtered, Coming, From, Resumable;
    var coming := Coming(v, start);
    var cut := FirstPage(coming, size);
    next := done + cut;
    FilteredConcat(done, cut, v.filter);
    NothingFiltered(v.filter);
    assert done + [] == done && cut + [] == cut;
    if 0 < size < |coming| {
      NextStart(v, start, size);
      assert cut[size - 1] == coming[size - 1];
    } else {
      assert coming[|coming|..] == [];
    }
    assert coming == cut + coming[|cut|..];
    Assoc(done, cut, coming[|cut|..]);
    Assoc(done, cut, GoodPages(coming[|cut|..], v.filter, size));
  }

  // ---- QueryCollection: the first n recognised ones ----

  function Recognised<T>(items: seq<Item>, recognise: Item -> Option<T>): seq<T> {
    if items == [] then []
    else (match recognise(items[0]) case Some(x) => [x] case None => []) + Recognised(items[1..], recognise)
  }

  lemma {:induction false} RecognisedConcat<T>(a: seq<Item>, b: seq<Item>, recognise: Item -> Option<T>)
    ensures Recognised(a + b, recognise) == Recognised(a, recognise) + Recognised(b, recognise)
    decreases |a|
  {
    if a == [] {
      assert a + b == b;
    } else {
      assert (a + b)[1..] == a[1..] + b;
      RecognisedConcat(a[1..], b, recognise);
      Assoc(match recognise(a[0]) case Some(x) => [x] case None => [], Recognised(a[1..], recognise), Recognised(b, recognise));
    }
  }

  /** QueryCollection asks for pages of the whole limit each time, and stops at the
      limit. An error comes out exactly when the pages before it do not reach it. */
  method FetchCollection<T>(v: View, recognise: Item -> Option<T>, limit: nat) returns (r: Result<seq<T>>)
    requires Resumable(v)
    ensures var cands := Coming(v, map[]);
      var xs := Recognised(GoodItems(cands, v.filter, limit), recognise);
      r == if 0 < limit <= |xs| then Ok(xs[..limit])
           else if |GoodPages(cands, v.filter, limit)| < |cands| then Err
           else Ok(xs)
  {
    hide PageOf, Resumable, Recognised, From, Halfway, GoodItems, GoodPages, Coming, Filtered;
    var items := [];
    var startKey := map[];
    ghost var cands := Coming(v, map[]);
    ghost var done: seq<Ref> := [];
    AtTheStart(v, limit);
    NothingFiltered(v.filter);
    NothingRecognised(recognise);
    while true
      invariant limit > 0 ==> |items| < limit
      invariant Halfway(v, cands, limit, done, startKey) && Filtered(done, v.filter).Ok?
      invariant items == Recognised(Filtered(done, v.filter).value, recognise)
      decreases |v.refs| - From(v, startKey)
    {
      ghost var next := OnePage(v, cands, limit, done, startKey);
      var page := PageOf(v, startKey, limit);
      if page.Err? {
        return Err;
      }
      RecognisedConcat(Filtered(done, v.filter).value, page.value.items, recognise);
      var full;
      items, full := TakeRecognised(items, page.value.items, recognise, limit);
      if page.value.last != map[] {
        ghost var more := DoneIsGood(v, cands, limit, next, page.value.last);
        RecognisedConcat(Filtered(next, v.filter).value, more, recognise);
        FirstOfMore(Recognised(Filtered(next, v.filter).value, recognise), Recognised(more, recognise), limit);
      }
      if full {
        return Ok(items);
      }
      if page.value.last == map[] {
        return Ok(items);
      }
      HalfwayIsFine(v, cands, limit, next, page.value.last);
      startKey, done := page.value.last, next;
    }
  }

  lemma HalfwayIsFine(v: View, cands: seq<Ref>, size: nat, done: seq<Ref>, start: Item)
    requires Halfway(v, cands, size, done, start)
    ensures Filtered(done, v.filter).Ok?
  {
  }

  lemma FirstOfMore<T>(a: seq<T>, b: seq<T>, n: nat)
    ensures n <= |a| ==> (a + b)[..n] == a[..n]
  {
  }

  lemma NothingRecognised<T>(recognise: Item -> Option<T>)
    ensures Recognised([], recognise) == []
  {
  }

  /** The inner loop: recognised items are appended until the limit is reached. */
  method TakeRecognised<T>(before: seq<T>, items: seq<Item>, recognise: Item -> Option<T>, limit: nat) returns (out: seq<T>, full: bool)
    requires limit > 0 ==> |before| < limit
    ensures full <==> limit > 0 && |before + Recognised(items, recognise)| >= limit
    ensures out == (if full then (before + Recognised(items, recognise))[..limit] else before + Recognised(items, recognise))
  {
    out := before;
    assert items[0..] == items;
    for i := 0 to |items|
      invariant limit > 0 ==> |out| < limit
      invariant out + Recognised(items[i..], recognise) == before + Recognised(items, recognise)
    {
      assert items[i..][1..] == items[i + 1..];
      var v := recognise(items[i]);
      ghost var later := Recognised(items[i + 1..], recognise);
      if v.Some? {
        Assoc(out, [v.value], later);
        out := out + [v.value];
        if limit > 0 && |out| >= limit {
          assert (out + later)[..limit] == out;
          return out, true;
        }
      } else {
        assert [] + later == later;
      }
    }
    assert out + [] == out;
    full := false;
  }

  // ---- The iterators ----

  /** What an iterator makes of an item: a value to yield, nothing (an unrecognised
      item of a collection), or an error. */
  type Reader<T> = Item -> Result<Option<T>>

  /** The values up to the first error, and whether there is one. */
  datatype Reads<T> = Reads(values: seq<T>, failed: bool)

  function Put<T>(x: Option<T>, rest: Reads<T>): Reads<T> {
    match x case Some(y) => Reads([y] + rest.values, rest.failed) case None => rest
  }

  function ReadUntil<T>(items: seq<Item>, read: Reader<T>): Reads<T> {
    if items == [] then Reads([], false)
    else
      match read(items[0])
      case Err => Reads([], true)
      case Ok(x) => Put(x, ReadUntil(items[1..], read))
  }

  /** Values already yielded, then others. */
  function Then<T>(values: seq<T>, rest: Reads<T>): Reads<T> { Reads(values + rest.values, rest.failed) }

  lemma {:induction false} ReadConcat<T>(a: seq<Item>, b: seq<Item>, read: Reader<T>)
    ensures ReadUntil(a + b, read) == (if ReadUntil(a, read).failed then ReadUntil(a, read) else Then(ReadUntil(a, read).values, ReadUntil(b, read)))
    decreases |a|
  {
    if a == [] {
      assert a + b == b;
      assert [] + ReadUntil(b, read).values == ReadUntil(b, read).values;
    } else {
      assert (a + b)[1..] == a[1..] + b && (a + b)[0] == a[0];
      ReadConcat(a[1..], b, read);
      if read(a[0]).Ok? && read(a[0]).value.Some? {
        Assoc([read(a[0]).value.value], ReadUntil(a[1..], read).values, ReadUntil(b, read).values);
      }
    }
  }

  /** The consumer stops at the first prefix that it does not want to go beyond. */
  ghost predicate StopsAt<T>(out: seq<T>, keep: seq<T> -> bool) { forall k :: 0 < k < |out| ==> keep(out[..k]) }

  /** What there is to yield: the good pages up to the first error in them; at their end
      there is an error when a page has been one. */
  function Yields<T>(v: View, read: Reader<T>, pageSize: nat): Reads<T> {
    var cands := Coming(v, map[]);
    var good := ReadUntil(GoodItems(cands, v.filter, pageSize), read);
    Reads(good.values, good.failed || |GoodPages(cands, v.filter, pageSize)| < |cands|)
  }

  /** QueryIter, ScanIter and CollectionIter: page after page of any size, yielding
      all there is and then the error, unless the consumer stops before. */
  method Iterate<T>(v: View, read: Reader<T>, pageSize: nat, keep: seq<T> -> bool) returns (out: seq<T>, failed: bool)
    requires Resumable(v)
    ensures StopsAt(out, keep)
    ensures if out != [] && !keep(out) then out <= Yields(v, read, pageSize).values && !failed
            else Reads(out, failed) == Yields(v, read, pageSize)
  {
    hide PageOf, Resumable, ReadUntil, From, Halfway, GoodItems, GoodPages, Coming, Filtered;
    out, failed := [], false;
    var startKey := map[];
    ghost var cands := Coming(v, map[]);
    ghost var done: seq<Ref> := [];
    AtTheStart(v, pageSize);
    NothingFiltered(v.filter);
    NothingRead(read);
    while true
      invariant StopsAt(out + [], keep) && (out != [] ==> keep(out))
      invariant Halfway(v, cands, pageSize, done, startKey) && Filtered(done, v.filter).Ok?
      invariant ReadUntil(Filtered(done, v.filter).value, read) == Reads(out, false)
      decreases |v.refs| - From(v, startKey)
    {
      assert out + [] == out;
      ghost var next := OnePage(v, cands, pageSize, done, startKey);
      var page := PageOf(v, startKey, pageSize);
      if page.Err? {
        return out, true;
      }
      ReadConcat(Filtered(done, v.filter).value, page.value.items, read);
      var stopped;
      out, stopped, failed := YieldPage(out, page.value.items, read, keep);
      if page.value.last != map[] {
        ghost var more := DoneIsGood(v, cands, pageSize, next, page.value.last);
        ReadConcat(Filtered(next, v.filter).value, more, read);
        HalfwayIsFine(v, cands, pageSize, next, page.value.last);
      }
      if stopped || failed || page.value.last == map[] {
        return;
      }
      startKey, done := page.value.last, next;
      assert out + [] == out;
    }
  }

  lemma NothingRead<T>(read: Reader<T>)
    ensures ReadUntil([], read) == Reads([], false)
  {
  }

  /** The inner loop of an iterator over one page. */
  method YieldPage<T>(before: seq<T>, items: seq<Item>, read: Reader<T>, keep: seq<T> -> bool)
    returns (out: seq<T>, stopped: bool, failed: bool)
    requires StopsAt(before, keep) && (before != [] ==> keep(before))
    ensures StopsAt(out, keep) && (stopped <==> out != [] && !keep(out))
    ensures if stopped then out <= before + ReadUntil(items, read).values && !failed
            else Reads(out, failed) == Then(before, ReadUntil(items, read))
  {
    out, stopped, failed := before, false, false;
    assert items[0..] == items;
    for i := 0 to |items|
      invariant StopsAt(out, keep) && (out != [] ==> keep(out))
      invariant Then(before, ReadUntil(items, read)) == Then(out, ReadUntil(items[i..], read))
    {
      assert items[i..][1..] == items[i + 1..];
      var x := read(items[i]);
      if x.Err? {
        assert out + [] == out;
        return out, false, true;
      }
      if x.value.Some? {
        Assoc(out, [x.value.value], ReadUntil(items[i + 1..], read).values);
        AppendKeeps(out, x.value.value, keep);
        out := out + [x.value.value];
        if !keep(out) {
          return out, true, false;
        }
      }
    }
    assert out + [] == out;
  }

  lemma AppendKeeps<T>(out: seq<T>, x: T, keep: seq<T> -> bool)
    requires StopsAt(out, keep) && (out != [] ==> keep(out))
    ensures StopsAt(out + [x], keep)
  {
    forall k | 0 < k < |out + [x]|
      ensures keep((out + [x])[..k])
    {
      assert (out + [x])[..k] == out[..k];
      assert k == |out| ==> out[..k] == out;
    }
  }
}
