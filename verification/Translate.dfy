/** The printer of internal/expr/translate.go: from a condition tree to a
    DynamoDB expression string with #name and :value placeholders. */
module Translate {
  import opened Base
  import opened Values
  import opened Ast

  function Alias(name: string): string { "#" + name }

  function Placeholder(i: nat): string { ":v" + NatToString(i) }

  lemma PlaceholderInjective(i: nat, j: nat)
    requires Placeholder(i) == Placeholder(j)
    ensures i == j
  {
    assert NatToString(i) == Placeholder(i)[2..] && NatToString(j) == Placeholder(j)[2..];
    NatToStringInjective(i, j);
  }

  function Elements(parts: seq<string>): set<string> { set p | p in parts }

  function AliasSet(names: set<string>): set<string> { set x | x in names :: Alias(x) }

  // ---- What is printed ----

  /** The values of a tree, in the order in which they are numbered. */
  function ValuesOf(n: Node): seq<AttributeValue> {
    match n
    case CompareNode(l, _, r) => ValuesOf(l) + ValuesOf(r)
    case AndNode(l, r) => ValuesOf(l) + ValuesOf(r)
    case OrNode(l, r) => ValuesOf(l) + ValuesOf(r)
    case NotNode(x) => ValuesOf(x)
    case FuncNode(_, args) => ValuesOfAll(args)
    case PathNode(_) => []
    case ValueNode(v) => [v]
  }

  function ValuesOfAll(ns: seq<Node>): seq<AttributeValue> {
    if ns == [] then [] else ValuesOf(ns[0]) + ValuesOfAll(ns[1..])
  }

  function NamesOf(n: Node): set<string> {
    match n
    case CompareNode(l, _, r) => NamesOf(l) + NamesOf(r)
    case AndNode(l, r) => NamesOf(l) + NamesOf(r)
    case OrNode(l, r) => NamesOf(l) + NamesOf(r)
    case NotNode(x) => NamesOf(x)
    case FuncNode(_, args) => NamesOfAll(args)
    case PathNode(parts) => Elements(parts)
    case ValueNode(_) => {}
  }

  function NamesOfAll(ns: seq<Node>): set<string> {
    if ns == [] then {} else NamesOf(ns[0]) + NamesOfAll(ns[1..])
  }

  /** The text of n when its first value gets number v. */
  function Print(n: Node, v: nat): string {
    match n
    case CompareNode(l, op, r) => Print(l, v) + " " + (OpSymbol(op) + " " + Print(r, v + |ValuesOf(l)|))
    case AndNode(l, r) => "(" + Print(l, v) + ") " + "AND" + " (" + Print(r, v + |ValuesOf(l)|) + ")"
    case OrNode(l, r) => "(" + Print(l, v) + ") " + "OR" + " (" + Print(r, v + |ValuesOf(l)|) + ")"
    case NotNode(x) => "NOT (" + Print(x, v) + ")"
    case FuncNode(name, args) => name + "(" + Join(PrintAll(args, v), ", ") + ")"
    case PathNode(parts) => Join(Aliases(parts), ".")
    case ValueNode(_) => Placeholder(v)
  }

  function PrintAll(ns: seq<Node>, v: nat): (ss: seq<string>)
    ensures |ss| == |ns|
  {
    if ns == [] then [] else [Print(ns[0], v)] + PrintAll(ns[1..], v + |ValuesOf(ns[0])|)
  }

  function Aliases(parts: seq<string>): (ss: seq<string>)
    ensures |ss| == |parts|
  {
    seq(|parts|, i requires 0 <= i < |parts| => Alias(parts[i]))
  }

  /** The values map after registering vs under the numbers v, v + 1, ... */
  function AddValues(m: map<string, AttributeValue>, vs: seq<AttributeValue>, v: nat): map<string, AttributeValue>
    decreases |vs|
  {
    if vs == [] then m else AddValues(m[Placeholder(v) := vs[0]], vs[1..], v + 1)
  }

  lemma {:induction false} AddValuesConcat(m: map<string, AttributeValue>, a: seq<AttributeValue>, b: seq<AttributeValue>, v: nat)
    ensures AddValues(m, a + b, v) == AddValues(AddValues(m, a, v), b, v + |a|)
    decreases |a|
  {
    if a == [] {
      assert a + b == b;
    } else {
      assert (a + b)[1..] == a[1..] + b;
      AddValuesConcat(m[Placeholder(v) := a[0]], a[1..], b, v + 1);
    }
  }

  /** The values vs can be looked up under the numbers v, v + 1, ... */
  ghost predicate HasValues(m: map<string, AttributeValue>, vs: seq<AttributeValue>, v: nat) {
    forall i :: 0 <= i < |vs| ==> Lookup(m, Placeholder(v + i)) == Some(vs[i])
  }

  lemma {:induction false} AddValuesKeeps(m: map<string, AttributeValue>, vs: seq<AttributeValue>, v: nat, i: nat)
    requires i < v
    ensures Lookup(AddValues(m, vs, v), Placeholder(i)) == Lookup(m, Placeholder(i))
    decreases |vs|
  {
    if vs != [] {
      if Placeholder(i) == Placeholder(v) {
        PlaceholderInjective(i, v);
      }
      AddValuesKeeps(m[Placeholder(v) := vs[0]], vs[1..], v + 1, i);
    }
  }

  lemma {:induction false} AddedValuesAreFound(m: map<string, AttributeValue>, vs: seq<AttributeValue>, v: nat)
    ensures HasValues(AddValues(m, vs, v), vs, v)
    decreases |vs|
  {
    if vs != [] {
      var m' := m[Placeholder(v) := vs[0]];
      AddedValuesAreFound(m', vs[1..], v + 1);
      AddValuesKeeps(m', vs[1..], v + 1, v);
      forall i | 0 <= i < |vs|
        ensures Lookup(AddValues(m, vs, v), Placeholder(v + i)) == Some(vs[i])
      {
        if i > 0 {
          assert vs[i] == vs[1..][i - 1] && v + i == v + 1 + (i - 1);
        }
      }
    }
  }

  lemma HasValuesSplits(m: map<string, AttributeValue>, a: seq<AttributeValue>, b: seq<AttributeValue>, v: nat)
    requires HasValues(m, a + b, v)
    ensures HasValues(m, a, v) && HasValues(m, b, v + |a|)
  {
    forall i | 0 <= i < |a|
      ensures Lookup(m, Placeholder(v + i)) == Some(a[i])
    {
      assert (a + b)[i] == a[i];
    }
    forall i | 0 <= i < |b|
      ensures Lookup(m, Placeholder(v + |a| + i)) == Some(b[i])
    {
      assert (a + b)[|a| + i] == b[i];
    }
  }

  lemma PartsSnoc(parts: seq<string>, i: nat)
    requires i < |parts|
    ensures Aliases(parts[..i + 1]) == Aliases(parts[..i]) + [Alias(parts[i])]
    ensures AliasSet(Elements(parts[..i + 1])) == AliasSet(Elements(parts[..i])) + {Alias(parts[i])}
  {
    assert Elements(parts[..i + 1]) == Elements(parts[..i]) + {parts[i]};
  }

  // ---- The translator object ----

  class Translator {
    var names: map<string, string>
    var values: map<string, AttributeValue>
    var nameIdx: int
    var valueIdx: nat
    var nameCache: map<string, string>

    constructor ()
      ensures Valid() && names == map[] && values == map[] && valueIdx == 0
    {
      names, values, nameIdx, valueIdx, nameCache := map[], map[], 0, 0, map[];
    }

    /** Every alias is '#' followed by the name it stands for. */
    ghost predicate Valid()
      reads this
    {
      && (forall a :: a in names ==> a == Alias(names[a]))
      && (forall name :: name in nameCache ==> nameCache[name] == Alias(name) && Alias(name) in names)
    }

    /** The contract covers every state; the last clause says that from a valid
        one the numbered "#n0" form is never used. */
    method AliasName(name: string) returns (alias: string)
      modifies `names, `nameIdx, `nameCache
      ensures name in old(nameCache) ==>
        alias == old(nameCache)[name] && names == old(names) && nameIdx == old(nameIdx) && nameCache == old(nameCache)
      ensures name !in old(nameCache) ==>
        var collides := Alias(name) in old(names) && old(names)[Alias(name)] != name;
        && alias == (if collides then "#n" + IntToString(old(nameIdx)) else Alias(name))
        && nameIdx == (if collides then old(nameIdx) + 1 else old(nameIdx))
        && names == old(names)[alias := name] && nameCache == old(nameCache)[name := alias]
      ensures old(Valid()) ==> Valid() && alias == Alias(name) && names == old(names)[Alias(name) := name]
    {
      if name in nameCache {
        alias := nameCache[name];
        assert forall x {:trigger Alias(x)} :: Alias(x)[1..] == x;
        return;
      }
      alias := "#" + name;
      ghost var own := alias;
      assert own[1..] == name;
      assert forall x {:trigger Alias(x)} :: Alias(x)[1..] == x;
      if alias in names && names[alias] != name {
        alias := "#n" + IntToString(nameIdx);
        nameIdx := nameIdx + 1;
      }
      names := names[alias := name];
      nameCache := nameCache[name := alias];
    }

    method AliasValue(val: AttributeValue) returns (placeholder: string)
      modifies `values, `valueIdx
      ensures placeholder == Placeholder(old(valueIdx)) && valueIdx == old(valueIdx) + 1
      ensures values == old(values)[placeholder := val]
      ensures old(Valid()) ==> Valid()
    {
      placeholder := ":v" + NatToString(valueIdx);
      valueIdx := valueIdx + 1;
      values := values[placeholder := val];
    }

    method TranslateNode(n: Node) returns (text: string)
      requires Valid()
      modifies this
      ensures text == Print(n, old(valueIdx))
      ensures Valid() && valueIdx == old(valueIdx) + |ValuesOf(n)|
      ensures values == AddValues(old(values), ValuesOf(n), old(valueIdx))
      ensures names.Keys == old(names).Keys + AliasSet(NamesOf(n))
      decreases n
    {
      hide Valid, AliasSet, AddValues, Join, Aliases, Placeholder, Alias, Elements, OpSymbol, ValuesOfAll, NamesOfAll, PrintAll;
      NoArgs(old(values), old(valueIdx));
      match n
      case CompareNode(l, op, r) =>
        var left, right := TranslatePair(n, l, r);
        text := left + " " + (OpSymbol(op) + " " + right);
      case AndNode(l, r) =>
        var left, right := TranslatePair(n, l, r);
        text := "(" + left + ") " + "AND" + " (" + right + ")";
      case OrNode(l, r) =>
        var left, right := TranslatePair(n, l, r);
        text := "(" + left + ") " + "OR" + " (" + right + ")";
      case NotNode(x) =>
        var operand := TranslateNode(x);
        text := "NOT (" + operand + ")";
      case FuncNode(name, args) =>
        var texts := TranslateArgs(args);
        text := name + "(" + Join(texts, ", ") + ")";
      case PathNode(parts) =>
        text := TranslatePath(parts);
      case ValueNode(v) =>
        text := AliasValue(v);
        OneValue(old(values), v, old(valueIdx));
    }

    method TranslatePair(ghost n: Node, l: Node, r: Node) returns (left: string, right: string)
      requires Valid() && l < n && r < n
      modifies this
      ensures left == Print(l, old(valueIdx)) && right == Print(r, old(valueIdx) + |ValuesOf(l)|)
      ensures Valid() && valueIdx == old(valueIdx) + |ValuesOf(l) + ValuesOf(r)|
      ensures values == AddValues(old(values), ValuesOf(l) + ValuesOf(r), old(valueIdx))
      ensures names.Keys == old(names).Keys + AliasSet(NamesOf(l) + NamesOf(r))
      decreases n, 0
    {
      hide *;
      left := TranslateNode(l);
      right := TranslateNode(r);
      AliasSetUnion(NamesOf(l), NamesOf(r));
      AddValuesConcat(old(values), ValuesOf(l), ValuesOf(r), old(valueIdx));
    }

    method TranslateArgs(args: seq<Node>) returns (texts: seq<string>)
      requires Valid()
      modifies this
      ensures texts == PrintAll(args, old(valueIdx))
      ensures Valid() && valueIdx == old(valueIdx) + |ValuesOfAll(args)|
      ensures values == AddValues(old(values), ValuesOfAll(args), old(valueIdx))
      ensures names.Keys == old(names).Keys + AliasSet(NamesOfAll(args))
      decreases args, 0
    {
      hide *;
      NoArgs(old(values), old(valueIdx));
      assert args[..0] == [] && old(names).Keys + {} == old(names).Keys;
      texts := [];
      var i := 0;
      while i < |args|
        invariant 0 <= i <= |args|
        invariant Valid()
        invariant valueIdx == old(valueIdx) + |ValuesOfAll(args[..i])|
        invariant values == AddValues(old(values), ValuesOfAll(args[..i]), old(valueIdx))
        invariant names.Keys == old(names).Keys + AliasSet(NamesOfAll(args[..i]))
        invariant texts == PrintAll(args[..i], old(valueIdx))
      {
        var text := TranslateNode(args[i]);
        texts := texts + [text];
        ArgsSnoc(args[..i], args[i], old(valueIdx));
        AliasSetUnion(NamesOfAll(args[..i]), NamesOf(args[i]));
        AddValuesConcat(old(values), ValuesOfAll(args[..i]), ValuesOf(args[i]), old(valueIdx));
        assert args[..i + 1] == args[..i] + [args[i]];
        i := i + 1;
      }
      assert args[..i] == args;
    }

    method TranslatePath(parts: seq<string>) returns (text: string)
      requires Valid()
      modifies `names, `nameIdx, `nameCache
      ensures text == Join(Aliases(parts), ".")
      ensures Valid()
      ensures names.Keys == old(names).Keys + AliasSet(Elements(parts))
    {
      var aliases: seq<string> := [];
      assert AliasSet(Elements(parts[..0])) == {};
      for i := 0 to |parts|
        invariant aliases == Aliases(parts[..i])
        invariant Valid()
        invariant names.Keys == old(names).Keys + AliasSet(Elements(parts[..i]))
      {
        hide Valid;
        var alias := AliasName(parts[i]);
        PartsSnoc(parts, i);
        aliases := aliases + [alias];
      }
      assert parts[..|parts|] == parts;
      text := Join(aliases, ".");
    }
  }

  lemma AliasSetUnion(a: set<string>, b: set<string>)
    ensures AliasSet(a + b) == AliasSet(a) + AliasSet(b)
  {
  }

  lemma NoArgs(m: map<string, AttributeValue>, v: nat)
    ensures ValuesOfAll([]) == [] && NamesOfAll([]) == {} && PrintAll([], v) == []
    ensures AddValues(m, [], v) == m && AliasSet({}) == {}
  {
  }

  lemma OneValue(m: map<string, AttributeValue>, val: AttributeValue, v: nat)
    ensures AddValues(m, [val], v) == m[Placeholder(v) := val]
  {
  }

  lemma {:induction false} ArgsSnoc(ns: seq<Node>, n: Node, v: nat)
    ensures ValuesOfAll(ns + [n]) == ValuesOfAll(ns) + ValuesOf(n)
    ensures NamesOfAll(ns + [n]) == NamesOfAll(ns) + NamesOf(n)
    ensures PrintAll(ns + [n], v) == PrintAll(ns, v) + [Print(n, v + |ValuesOfAll(ns)|)]
    decreases |ns|
  {
    if ns == [] {
      assert ns + [n] == [n];
    } else {
      assert (ns + [n])[1..] == ns[1..] + [n];
      ArgsSnoc(ns[1..], n, v + |ValuesOf(ns[0])|);
    }
  }

  /** ToDynamo: the expression string with its name and value maps. */
  method ToDynamo(n: Node) returns (text: string, names: map<string, string>, values: map<string, AttributeValue>)
    ensures text == Print(n, 0) && values == AddValues(map[], ValuesOf(n), 0)
    ensures names.Keys == AliasSet(NamesOf(n))
    ensures forall a :: a in names ==> a == Alias(names[a])
  {
    var t := new Translator();
    text := t.TranslateNode(n);
    names, values := t.names, t.values;
  }
}
