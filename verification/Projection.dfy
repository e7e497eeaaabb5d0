/** Projections: the client's buildProjection (get.go) against memdb's projectItem
    (memdb/memdb.go). */
module Projection {
  import opened Base
  import opened Values
  import opened Translate

  // ---- The text of a projection, as memdb reads it ----

  /** splitCSV. */
  function SplitCommas(s: string): (parts: seq<string>)
    ensures |parts| > 0
  {
    if s == "" then [""]
    else
      var rest := SplitCommas(s[1..]);
      if s[0] == ',' then [""] + rest else [[s[0]] + rest[0]] + rest[1..]
  }

  predicate IsSpace(c: char) { c == ' ' || c == '\t' }

  function TrimLeft(s: string): string { if s != "" && IsSpace(s[0]) then TrimLeft(s[1..]) else s }

  function TrimRight(s: string): string { if s != "" && IsSpace(s[|s| - 1]) then TrimRight(s[..|s| - 1]) else s }

  /** trimSpace. */
  function Trim(s: string): string { TrimRight(TrimLeft(s)) }

  /** One part: nothing, an attribute under its alias, or an attribute. */
  function AttrOf(part: string, names: map<string, string>): seq<string> {
    var p := Trim(part);
    if p == "" then []
    else if p[0] == '#' && p in names then [names[p]]
    else [p]
  }

  function AttrsOf(parts: seq<string>, names: map<string, string>): seq<string> {
    if parts == [] then [] else AttrOf(parts[0], names) + AttrsOf(parts[1..], names)
  }

  /** parseProjectionAttrs. */
  function ProjectionAttrs(projection: string, names: map<string, string>): seq<string> { AttrsOf(SplitCommas(projection), names) }

  /** projectItem: without a projection, the whole item. */
  function Projected(item: Item, projection: string, names: map<string, string>): Item {
    if projection == "" then item else Only(item, ProjectionAttrs(projection, names))
  }

  function Only(item: Item, attrs: seq<string>): Item { map a | a in item && a in attrs :: item[a] }

  // ---- The loops ----

  method SplitCSV(s: string) returns (parts: seq<string>)
    ensures parts == SplitCommas(s)
  {
    hide *;
    parts := [];
    var start := 0;
    assert s[0..] == s && s[0..0] == "" && s[|s|..] == "";
    OntoNothing(SplitCommas(s));
    assert [] + SplitCommas(s) == SplitCommas(s);
    for i := 0 to |s|
      invariant start <= i && SplitCommas(s) == parts + Onto(s[start..i], SplitCommas(s[i..]))
    {
      SplitStep(s[start..i], s, i);
      assert s[start..i + 1] == s[start..i] + [s[i]];
      if s[i] == ',' {
        Assoc(parts, [s[start..i]], SplitCommas(s[i + 1..]));
        OntoNothing(SplitCommas(s[i + 1..]));
        parts := parts + [s[start..i]];
        start := i + 1;
        assert s[start..i + 1] == "";
      }
    }
    assert s[start..|s|] == s[start..];
    LastPart(s[start..]);
    parts := parts + [s[start..]];
  }

  lemma SplitStep(piece: string, s: string, i: nat)
    requires i < |s|
    ensures Onto(piece, SplitCommas(s[i..])) ==
      if s[i] == ',' then [piece] + SplitCommas(s[i + 1..]) else Onto(piece + [s[i]], SplitCommas(s[i + 1..]))
  {
    assert s[i..][1..] == s[i + 1..];
    var rest := SplitCommas(s[i + 1..]);
    if s[i] == ',' {
      assert ([""] + rest)[1..] == rest && piece + "" == piece;
    } else {
      OntoTwice(piece, s[i], rest);
    }
  }

  lemma LastPart(piece: string)
    ensures Onto(piece, SplitCommas("")) == [piece]
  {
    assert piece + "" == piece;
  }

  /** A piece in front of the first part. */
  function Onto(piece: string, parts: seq<string>): seq<string>
    requires parts != []
  {
    [piece + parts[0]] + parts[1..]
  }

  lemma OntoNothing(parts: seq<string>)
    requires parts != []
    ensures Onto("", parts) == parts
  {
    assert "" + parts[0] == parts[0];
  }

  lemma OntoTwice(piece: string, c: char, parts: seq<string>)
    requires parts != []
    ensures Onto(piece, [[c] + parts[0]] + parts[1..]) == Onto(piece + [c], parts)
  {
    assert piece + ([c] + parts[0]) == (piece + [c]) + parts[0];
  }

  method TrimSpace(s: string) returns (t: string)
    ensures t == Trim(s)
  {
    var i := 0;
    assert s[0..] == s;
    while i < |s| && IsSpace(s[i])
      invariant 0 <= i <= |s| && TrimLeft(s) == TrimLeft(s[i..])
    {
      assert s[i..][1..] == s[i + 1..];
      i := i + 1;
    }
    var j := |s|;
    assert s[i..|s|] == s[i..];
    while j > i && IsSpace(s[j - 1])
      invariant i <= j <= |s| && TrimRight(s[i..]) == TrimRight(s[i..j])
    {
      DropLast(s, i, j);
      j := j - 1;
    }
    t := s[i..j];
  }

  lemma DropLast(s: string, i: nat, j: nat)
    requires i < j <= |s|
    ensures |s[i..j]| == j - i && s[i..j][j - i - 1] == s[j - 1] && s[i..j][..j - i - 1] == s[i..j - 1]
  {
  }

  method ParseProjectionAttrs(projection: string, names: map<string, string>) returns (attrs: seq<string>)
    ensures attrs == ProjectionAttrs(projection, names)
  {
    hide Trim;
    var parts := SplitCSV(projection);
    attrs := [];
    assert parts[0..] == parts;
    for i := 0 to |parts|
      invariant AttrsOf(parts, names) == attrs + AttrsOf(parts[i..], names)
    {
      assert parts[i..][1..] == parts[i + 1..];
      Assoc(attrs, AttrOf(parts[i], names), AttrsOf(parts[i + 1..], names));
      var p := TrimSpace(parts[i]);
      if p != "" {
        attrs := attrs + [if p[0] == '#' && p in names then names[p] else p];
      }
      assert attrs + [] == attrs;
    }
  }

  method ProjectItem(item: Item, projection: string, names: map<string, string>) returns (result: Item)
    ensures result == Projected(item, projection, names)
  {
    if projection == "" {
      return item;
    }
    var attrs := ParseProjectionAttrs(projection, names);
    result := map[];
    for i := 0 to |attrs|
      invariant result == Only(item, attrs[..i])
    {
      OnlySnoc(item, attrs, i);
      if attrs[i] in item {
        result := result[attrs[i] := item[attrs[i]]];
      }
    }
    assert attrs[..|attrs|] == attrs;
  }

  lemma OnlySnoc(item: Item, attrs: seq<string>, i: nat)
    requires i < |attrs|
    ensures Only(item, attrs[..i + 1]) ==
      if attrs[i] in item then Only(item, attrs[..i])[attrs[i] := item[attrs[i]]] else Only(item, attrs[..i])
  {
    assert attrs[..i + 1] == attrs[..i] + [attrs[i]];
  }

  // ---- The client's projections ----

  /** buildProjection: aliases behind commas. */
  method BuildProjection(attrs: seq<string>) returns (text: string, names: map<string, string>)
    ensures text == Join(Aliases(attrs), ", ") && names == map a | a in Aliases(attrs) :: a[1..]
  {
    names := map[];
    var aliases: seq<string> := [];
    for i := 0 to |attrs|
      invariant aliases == Aliases(attrs[..i])
      invariant names == map a | a in Aliases(attrs[..i]) :: a[1..]
    {
      var alias := "#" + attrs[i];
      assert alias[1..] == attrs[i] && Aliases(attrs[..i + 1]) == Aliases(attrs[..i]) + [alias];
      names := names[alias := attrs[i]];
      aliases := aliases + [alias];
    }
    assert attrs[..|attrs|] == attrs;
    text := Join(aliases, ", ");
  }

  /** No comma, and no blank at the end. */
  predicate Plain(attr: string) { ',' !in attr && (attr != "" ==> !IsSpace(attr[|attr| - 1])) }

  /** The names know every alias in use, and no alias stands for another attribute. */
  predicate Names(names: map<string, string>, attrs: seq<string>) {
    && (forall a :: a in names ==> a == Alias(names[a]))
    && (forall i :: 0 <= i < |attrs| ==> Alias(attrs[i]) in names)
  }

  lemma {:induction false} TrimRightEnds(s: string)
    ensures TrimRight(s) != "" ==> !IsSpace(TrimRight(s)[|TrimRight(s)| - 1])
    ensures forall c :: c in TrimRight(s) ==> c in s
  {
    if s != "" && IsSpace(s[|s| - 1]) {
      TrimRightEnds(s[..|s| - 1]);
      assert forall c :: c in s[..|s| - 1] ==> c in s;
    }
  }

  lemma {:induction false} TrimLeftInside(s: string)
    ensures forall c :: c in TrimLeft(s) ==> c in s
  {
    if s != "" && IsSpace(s[0]) {
      TrimLeftInside(s[1..]);
      assert forall c :: c in s[1..] ==> c in s;
    }
  }

  lemma {:induction false} PartsHaveNoCommas(s: string)
    ensures forall i :: 0 <= i < |SplitCommas(s)| ==> ',' !in SplitCommas(s)[i]
  {
    if s != "" {
      PartsHaveNoCommas(s[1..]);
      var rest := SplitCommas(s[1..]);
      assert s[0] != ',' ==> ',' !in [s[0]] + rest[0];
    }
  }

  /** Whatever memdb reads out of a projection is plain. */
  lemma AttrIsPlain(part: string, names: map<string, string>)
    requires ',' !in part && forall a :: a in names ==> a == Alias(names[a])
    ensures forall i :: 0 <= i < |AttrOf(part, names)| ==> Plain(AttrOf(part, names)[i])
  {
    TrimLeftInside(part);
    TrimRightEnds(TrimLeft(part));
    var p := Trim(part);
    hide TrimLeft, TrimRight;
    assert ',' !in p;
    if p != "" && p[0] == '#' && p in names {
      var attr := names[p];
      assert p == Alias(attr) && forall i :: 0 <= i < |attr| ==> attr[i] == p[i + 1];
    }
  }

  lemma {:induction false} AttrsArePlain(parts: seq<string>, names: map<string, string>)
    requires (forall i :: 0 <= i < |parts| ==> ',' !in parts[i]) && forall a :: a in names ==> a == Alias(names[a])
    ensures forall i :: 0 <= i < |AttrsOf(parts, names)| ==> Plain(AttrsOf(parts, names)[i])
  {
    hide AttrOf, Plain;
    if parts != [] {
      AttrIsPlain(parts[0], names);
      AttrsArePlain(parts[1..], names);
    }
  }

  lemma {:induction false} SplitAtComma(a: string, rest: string)
    requires ',' !in a
    ensures SplitCommas(a + ("," + rest)) == [a] + SplitCommas(rest)
  {
    var s := a + ("," + rest);
    if a == "" {
      assert s == "," + rest && s[1..] == rest;
    } else {
      assert s[1..] == a[1..] + ("," + rest);
      SplitAtComma(a[1..], rest);
      assert [a[0]] + a[1..] == a;
    }
  }

  lemma {:induction false} SplitNoComma(a: string)
    requires ',' !in a
    ensures SplitCommas(a) == [a]
  {
    if a != "" {
      SplitNoComma(a[1..]);
      assert [a[0]] + a[1..] == a;
    }
  }

  /** An alias, after a blank or not, is read as its attribute. */
  lemma AliasIsRead(attr: string, blank: bool, names: map<string, string>)
    requires Plain(attr) && Lookup(names, Alias(attr)) == Some(attr)
    ensures AttrOf((if blank then " " else "") + Alias(attr), names) == [attr]
  {
    var s := (if blank then " " else "") + Alias(attr);
    assert TrimLeft(Alias(attr)) == Alias(attr);
    assert blank ==> s[1..] == Alias(attr);
    assert !blank ==> s == Alias(attr);
    assert TrimRight(Alias(attr)) == Alias(attr);
  }

  /** The parts of a projection, the first one behind a blank or not. */
  lemma {:induction false} AliasesAreRead(attrs: seq<string>, blank: bool, names: map<string, string>)
    requires attrs != [] && Names(names, attrs) && forall i :: 0 <= i < |attrs| ==> Plain(attrs[i])
    ensures AttrsOf(SplitCommas((if blank then " " else "") + Join(Aliases(attrs), ", ")), names) == attrs
    decreases |attrs|
  {
    var b := if blank then " " else "";
    var first := b + Alias(attrs[0]);
    AliasOfItself(names, attrs, 0);
    AliasIsRead(attrs[0], blank, names);
    NoCommaIn(attrs[0], blank);
    JoinAliases(attrs, b);
    hide *;
    if |attrs| == 1 {
      SplitNoComma(first);
      OnePart(first, names);
      assert attrs == [attrs[0]];
    } else {
      var rest := " " + Join(Aliases(attrs[1..]), ", ");
      SplitAtComma(first, rest);
      TailIsNamed(names, attrs);
      AliasesAreRead(attrs[1..], true, names);
      FirstPart(first, SplitCommas(rest), names);
      assert attrs == [attrs[0]] + attrs[1..];
    }
  }

  lemma NoCommaIn(attr: string, blank: bool)
    requires Plain(attr)
    ensures ',' !in (if blank then " " else "") + Alias(attr)
  {
  }

  lemma JoinAliases(attrs: seq<string>, b: string)
    requires attrs != []
    ensures |attrs| == 1 ==> b + Join(Aliases(attrs), ", ") == b + Alias(attrs[0])
    ensures |attrs| > 1 ==> b + Join(Aliases(attrs), ", ") == b + Alias(attrs[0]) + ("," + (" " + Join(Aliases(attrs[1..]), ", ")))
  {
    assert Aliases(attrs)[1..] == Aliases(attrs[1..]);
  }

  lemma OnePart(part: string, names: map<string, string>)
    ensures AttrsOf([part], names) == AttrOf(part, names)
  {
    hide AttrOf;
    assert [part][1..] == [];
  }

  lemma FirstPart(part: string, rest: seq<string>, names: map<string, string>)
    ensures AttrsOf([part] + rest, names) == AttrOf(part, names) + AttrsOf(rest, names)
  {
    hide AttrOf;
    assert ([part] + rest)[1..] == rest;
  }

  lemma AliasOfItself(names: map<string, string>, attrs: seq<string>, i: nat)
    requires Names(names, attrs) && i < |attrs|
    ensures Lookup(names, Alias(attrs[i])) == Some(attrs[i])
  {
    assert Alias(attrs[i])[1..] == Alias(names[Alias(attrs[i])])[1..];
  }

  lemma TailIsNamed(names: map<string, string>, attrs: seq<string>)
    requires attrs != [] && Names(names, attrs)
    ensures Names(names, attrs[1..])
  {
  }

  /** memdb reads the client's projection as the attributes asked for exactly when none
      of them has a comma in it or a blank at its end; then a projected item has just
      those attributes of the item. */
  lemma ProjectionIff(attrs: seq<string>, names: map<string, string>, item: Item)
    requires attrs != [] && Names(names, attrs)
    ensures var text := Join(Aliases(attrs), ", ");
      && (ProjectionAttrs(text, names) == attrs <==> forall i :: 0 <= i < |attrs| ==> Plain(attrs[i]))
      && ((forall i :: 0 <= i < |attrs| ==> Plain(attrs[i])) ==> Projected(item, text, names) == Only(item, attrs))
  {
    var text := Join(Aliases(attrs), ", ");
    PartsHaveNoCommas(text);
    AttrsArePlain(SplitCommas(text), names);
    assert Aliases(attrs)[0] == Alias(attrs[0]) && text != "";
    hide Plain, SplitCommas, AttrsOf, Only;
    if forall i :: 0 <= i < |attrs| ==> Plain(attrs[i]) {
      AliasesAreRead(attrs, false, names);
      assert "" + text == text;
    }
  }
}
