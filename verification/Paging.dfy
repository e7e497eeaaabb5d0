/** One page of Query or Scan in memdb/memdb.go, and what following
    LastEvaluatedKey from page to page adds up to. */
module Paging {
  import opened Base
  import opened Values
  import opened Store

  // ---- A page of an ordered list of entries ----

  /** An entry of a table or index: its key strings and its item. */
  datatype Ref = Ref(key: Key, item: Item)

  /** `last` is LastEvaluatedKey, empty on the last page. */
  datatype Page = Page(items: seq<Item>, scanned: nat, last: Item)

  /** What stays the same from page to page: the entries in order, the sort-key
      condition, the filter, how a start key is looked up, and how one is made. */
  datatype View = View(
    refs: seq<Ref>, wanted: Item -> bool, filter: Item -> Result<bool>, startOf: Item -> Key, keyOf: Item -> Item)

  /** One past the place of a key; 0 when it is not there. */
  function Position(refs: seq<Ref>, k: Key): (p: nat)
    ensures p <= |refs|
    ensures p > 0 ==> refs[p - 1].key == k
  {
    if refs == [] then 0
    else if refs[0].key == k then 1
    else
      var p := Position(refs[1..], k);
      if p == 0 then 0 else p + 1
  }

  function From(v: View, start: Item): (p: nat)
    ensures p <= |v.refs|
  {
    if start == map[] then 0 else Position(v.refs, v.startOf(start))
  }

  function Candidates(refs: seq<Ref>, wanted: Item -> bool): (cands: seq<Ref>)
    ensures |cands| <= |refs|
  {
    if refs == [] then [] else (if wanted(refs[0].item) then [refs[0]] else []) + Candidates(refs[1..], wanted)
  }

  /** The items that pass the filter; an error as soon as one cannot be evaluated. */
  function Filtered(cands: seq<Ref>, filter: Item -> Result<bool>): Result<seq<Item>> {
    if cands == [] then Ok([])
    else
      match filter(cands[0].item)
      case Err => Err
      case Ok(pass) => Behind(if pass then [cands[0].item] else [], Filtered(cands[1..], filter))
  }

  function Behind<T>(front: seq<T>, rest: Result<seq<T>>): Result<seq<T>> {
    match rest case Ok(more) => Ok(front + more) case Err => Err
  }

  /** The entries that a request with this start key goes through. */
  function Coming(v: View, start: Item): seq<Ref> { Candidates(v.refs[From(v, start)..], v.wanted) }

  function PageOf(v: View, start: Item, limit: nat): Result<Page> {
    var cands := Coming(v, start);
    var more := limit > 0 && |cands| > limit;
    var cut := if more then cands[..limit] else cands;
    match Filtered(cut, v.filter)
    case Err => Err
    case Ok(items) => Ok(Page(items, |cut|, if more then v.keyOf(cut[|cut| - 1].item) else map[]))
  }

  /** Everything from a start key on, in one go. */
  function Everything(v: View, start: Item): Result<seq<Item>> {
    Filtered(Coming(v, start), v.filter)
  }

  // ---- Resuming ----

  /** The key made from an entry leads back to that entry. */
  ghost predicate Resumable(v: View) {
    && (forall i, j :: 0 <= i < j < |v.refs| ==> v.refs[i].key != v.refs[j].key)
    && (forall i :: 0 <= i < |v.refs| ==>
          v.keyOf(v.refs[i].item) != map[] && v.startOf(v.keyOf(v.refs[i].item)) == v.refs[i].key)
  }

  lemma {:induction false} PositionOf(refs: seq<Ref>, i: nat)
    requires i < |refs| && forall a, b :: 0 <= a < b < |refs| ==> refs[a].key != refs[b].key
    ensures Position(refs, refs[i].key) == i + 1
  {
    if i > 0 {
      assert refs[1..][i - 1] == refs[i];
      PositionOf(refs[1..], i - 1);
    }
  }

  /** Where the n-th candidate is, and that the others come behind it. */
  lemma {:induction false} CandidateAt(refs: seq<Ref>, wanted: Item -> bool, n: nat) returns (i: nat)
    requires 0 < n <= |Candidates(refs, wanted)|
    ensures i < |refs| && refs[i] == Candidates(refs, wanted)[n - 1]
    ensures Candidates(refs[i + 1..], wanted) == Candidates(refs, wanted)[n..]
  {
    var rest := Candidates(refs[1..], wanted);
    if wanted(refs[0].item) && n == 1 {
      i := 0;
      assert ([refs[0]] + rest)[1..] == rest;
    } else {
      var m := if wanted(refs[0].item) then n - 1 else n;
      i := CandidateAt(refs[1..], wanted, m);
      assert refs[1..][i + 1..] == refs[i + 2..];
      if wanted(refs[0].item) {
        assert ([refs[0]] + rest)[n..] == rest[m..];
      } else {
        assert [] + rest == rest;
      }
      i := i + 1;
    }
  }

  lemma {:induction false} FilteredConcat(a: seq<Ref>, b: seq<Ref>, filter: Item -> Result<bool>)
    ensures Filtered(a + b, filter) ==
      match Filtered(a, filter) case Ok(items) => Behind(items, Filtered(b, filter)) case Err => Err
    decreases |a|
  {
    if a == [] {
      assert a + b == b;
      BehindNothing(Filtered(b, filter));
    } else {
      assert (a + b)[1..] == a[1..] + b && (a + b)[0] == a[0];
      FilteredConcat(a[1..], b, filter);
      if filter(a[0].item).Ok? && Filtered(a[1..], filter).Ok? {
        var head := if filter(a[0].item).value then [a[0].item] else [];
        BehindTwice(head, Filtered(a[1..], filter).value, Filtered(b, filter));
      }
    }
  }

  lemma BehindNothing<T>(r: Result<seq<T>>)
    ensures Behind([], r) == r
  {
    if r.Ok? {
      assert [] + r.value == r.value;
    }
  }

  lemma BehindTwice<T>(a: seq<T>, b: seq<T>, r: Result<seq<T>>)
    ensures Behind(a, Behind(b, r)) == Behind(a + b, r)
  {
    if r.Ok? {
      Assoc(a, b, r.value);
    }
  }

  /** The key made from the n-th entry to come leads to the entries behind it. */
  lemma NextStart(v: View, start: Item, n: nat)
    requires Resumable(v) && 0 < n <= |Coming(v, start)|
    ensures var last := v.keyOf(Coming(v, start)[n - 1].item);
      last != map[] && From(v, last) > From(v, start) && Coming(v, last) == Coming(v, start)[n..]
  {
    hide Candidates, Position;
    var from := From(v, start);
    var i := CandidateAt(v.refs[from..], v.wanted, n);
    assert v.refs[from..][i] == v.refs[from + i];
    assert v.refs[from..][i + 1..] == v.refs[from + i + 1..];
    PositionOf(v.refs, from + i);
  }

  /** A page cuts a piece off the entries to come; its key leads to the others. */
  lemma PageCut(v: View, start: Item, limit: nat) returns (cut: seq<Ref>, rest: seq<Ref>)
    requires Resumable(v)
    ensures Coming(v, start) == cut + rest && (limit > 0 ==> |cut| <= limit)
    ensures match PageOf(v, start, limit)
            case Err => Filtered(cut, v.filter).Err?
            case Ok(page) =>
              && Filtered(cut, v.filter) == Ok(page.items)
              && |page.items| <= page.scanned == |cut|
              && (if page.last == map[] then rest == []
                  else |cut| == limit && rest == Coming(v, page.last) && From(v, page.last) > From(v, start))
  {
    hide Filtered, Coming, From, Resumable;
    var cands := Coming(v, start);
    if limit > 0 && |cands| > limit {
      cut, rest := cands[..limit], cands[limit..];
      NextStart(v, start, limit);
      assert cut[limit - 1] == cands[limit - 1];
    } else {
      cut, rest := cands, [];
    }
    FilteredShrinks(cut, v.filter);
  }

  /** A page and what follows its key make up everything; each page scans at most its
      limit, and gets further. */
  lemma PageThenRest(v: View, start: Item, limit: nat)
    requires Resumable(v) && limit > 0
    ensures var p := PageOf(v, start, limit);
      match p
      case Err => Everything(v, start) == Err
      case Ok(page) =>
        && page.scanned <= limit
        && |page.items| <= page.scanned
        && (if page.last == map[] then Everything(v, start) == Ok(page.items)
            else
              && page.scanned == limit
              && From(v, page.last) > From(v, start)
              && Everything(v, start) == Behind(page.items, Everything(v, page.last)))
  {
    hide Filtered, Coming, From, Resumable, PageOf;
    var cut, rest := PageCut(v, start, limit);
    FilteredConcat(cut, rest, v.filter);
    if rest == [] {
      assert cut + rest == cut;
    }
  }

  lemma {:induction false} FilteredShrinks(cands: seq<Ref>, filter: Item -> Result<bool>)
    ensures Filtered(cands, filter).Ok? ==> |Filtered(cands, filter).value| <= |cands|
  {
    if cands != [] {
      FilteredShrinks(cands[1..], filter);
    }
  }

  /** Following LastEvaluatedKey to the end, with limit limits(i) on page i. */
  function Follow(v: View, start: Item, limits: nat -> nat, i: nat): Result<seq<Item>>
    decreases |v.refs| - From(v, start)
  {
    match PageOf(v, start, limits(i))
    case Err => Err
    case Ok(page) =>
      if page.last == map[] then Ok(page.items)
      else if From(v, page.last) <= From(v, start) then Err
      else Behind(page.items, Follow(v, page.last, limits, i + 1))
  }

  /** Pages rebuild the whole: whatever positive limits the pages have. */
  lemma {:induction false} PagesRebuildTheWhole(v: View, start: Item, limits: nat -> nat, i: nat)
    requires Resumable(v) && forall n :: limits(n) > 0
    ensures Follow(v, start, limits, i) == Everything(v, start)
    decreases |v.refs| - From(v, start)
  {
    hide PageOf, Everything, From;
    PageThenRest(v, start, limits(i));
    var p := PageOf(v, start, limits(i));
    if p.Ok? && p.value.last != map[] {
      PagesRebuildTheWhole(v, p.value.last, limits, i + 1);
    }
  }
}
