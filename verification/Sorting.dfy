/** Strings in byte order, each once: what sort.Strings makes of the keys of a
    Go map. */
module Sorting {
  import opened Base

  ghost predicate StrictlySorted(keys: seq<string>) { forall i, j :: 0 <= i < j < |keys| ==> Less(keys[i], keys[j]) }

  /** Where a key belongs among sorted ones. */
  function InsertKey(keys: seq<string>, x: string): seq<string> {
    if keys == [] || Less(x, keys[0]) then [x] + keys else [keys[0]] + InsertKey(keys[1..], x)
  }

  lemma {:induction false} InsertKeySorts(keys: seq<string>, x: string)
    requires StrictlySorted(keys) && x !in keys
    ensures StrictlySorted(InsertKey(keys, x))
    ensures forall y :: y in InsertKey(keys, x) <==> y == x || y in keys
  {
    hide Less;
    if keys == [] {
    } else if Less(x, keys[0]) {
      forall j | 0 <= j < |keys|
        ensures Less(x, keys[j])
      {
        if j > 0 {
          LessTransitive(x, keys[0], keys[j]);
        }
      }
    } else {
      var rest := InsertKey(keys[1..], x);
      InsertKeySorts(keys[1..], x);
      NotLess(x, keys[0]);
      assert forall j :: 0 <= j < |rest| ==> rest[j] in rest;
      assert forall j :: 0 < j < |keys| ==> Less(keys[0], keys[j]);
      assert keys == [keys[0]] + keys[1..];
      forall j | 0 <= j < |rest|
        ensures Less(keys[0], rest[j])
      {
        if rest[j] != x {
          var m :| 0 <= m < |keys[1..]| && keys[1..][m] == rest[j];
          assert keys[m + 1] == rest[j];
        }
      }
    }
  }

  lemma NotLess(x: string, y: string)
    requires !Less(x, y) && x != y
    ensures Less(y, x)
  {
    CompareFlips(x, y);
  }

  /** sort.Strings on the keys of a Go map: the keys come in any order. */
  method SortedKeysOf(keys: set<string>) returns (sorted: seq<string>)
    ensures sorted == SortedKeys(keys)
  {
    sorted := [];
    var todo := keys;
    while todo != {}
      invariant todo <= keys && StrictlySorted(sorted)
      invariant forall x :: x in sorted <==> x in keys && x !in todo
      decreases todo
    {
      hide Less;
      var x :| x in todo;
      InsertKeySorts(sorted, x);
      todo := todo - {x};
      sorted := InsertKey(sorted, x);
    }
    SortedIsUnique(sorted, SortedKeys(keys));
  }

  lemma {:induction false} SortedExists(keys: set<string>) returns (sorted: seq<string>)
    ensures StrictlySorted(sorted) && forall x :: x in sorted <==> x in keys
  {
    hide Less;
    sorted := [];
    var todo := keys;
    while todo != {}
      invariant todo <= keys && StrictlySorted(sorted)
      invariant forall x :: x in sorted <==> x in keys && x !in todo
      decreases todo
    {
      var x :| x in todo;
      InsertKeySorts(sorted, x);
      todo := todo - {x};
      sorted := InsertKey(sorted, x);
    }
  }

  /** The keys of a set, each once, in byte order. */
  ghost function SortedKeys(keys: set<string>): (sorted: seq<string>)
    ensures StrictlySorted(sorted) && forall x :: x in sorted <==> x in keys
  {
    assert exists q :: StrictlySorted(q) && forall x :: x in q <==> x in keys by {
      var q := SortedExists(keys);
    }
    var q :| StrictlySorted(q) && forall x :: x in q <==> x in keys;
    q
  }

  lemma {:induction false} SortedIsUnique(a: seq<string>, b: seq<string>)
    requires StrictlySorted(a) && StrictlySorted(b) && forall x :: x in a <==> x in b
    ensures a == b
    decreases |a|
  {
    hide Less;
    assert b != [] ==> b[0] in b;
    if a != [] {
      assert a[0] in b;
      assert b[0] in a;
      LeastFirst(a, b[0]);
      LeastFirst(b, a[0]);
      if a[0] != b[0] {
        NotBoth(a[0], b[0]);
      }
      TailsMatch(a, b);
      SortedIsUnique(a[1..], b[1..]);
      assert a == [a[0]] + a[1..] && b == [b[0]] + b[1..];
    }
  }

  lemma LeastFirst(a: seq<string>, x: string)
    requires StrictlySorted(a) && x in a
    ensures x == a[0] || Less(a[0], x)
  {
  }

  lemma NotBoth(x: string, y: string)
    requires Less(x, y)
    ensures !Less(y, x)
  {
    CompareFlips(x, y);
  }

  lemma TailsMatch(a: seq<string>, b: seq<string>)
    requires a != [] && b != [] && a[0] == b[0] && StrictlySorted(a) && StrictlySorted(b) && forall x :: x in a <==> x in b
    ensures StrictlySorted(a[1..]) && StrictlySorted(b[1..]) && forall x :: x in a[1..] <==> x in b[1..]
  {
    Irreflexive(a[0]);
    hide Less;
    forall x
      ensures x in a[1..] <==> x in b[1..]
    {
      assert x in a[1..] <==> x in a && x != a[0] by { InTail(a, x); }
      assert x in b[1..] <==> x in b && x != b[0] by { InTail(b, x); }
    }
  }

  lemma Irreflexive(x: string)
    ensures !Less(x, x)
  {
  }

  lemma InTail(a: seq<string>, x: string)
    requires a != [] && StrictlySorted(a)
    ensures x in a[1..] <==> x in a && x != a[0]
  {
    Irreflexive(a[0]);
    hide Less;
    if x in a[1..] {
      var i :| 0 <= i < |a[1..]| && a[1..][i] == x;
      assert a[i + 1] == x;
    }
    assert a == [a[0]] + a[1..];
  }
}
