/** An update with a condition (IfCondition, update.go): both number their values
    from :v0, and the condition's values are copied over the update's. */
module UpdateCondition {
  import opened Base
  import opened Values
  import opened Parser
  import opened Translate
  import opened RoundTrip
  import opened Condition
  import opened UpdateExpr
  import opened UpdateRequest
  import opened UpdateCompile

  function Relabel(c: Clause, ws: seq<AttributeValue>): Clause {
    if c.ValueClause? && ws != [] then c.(val := ws[|ws| - 1]) else c
  }

  function Before(c: Clause, ws: seq<AttributeValue>): seq<AttributeValue> {
    if c.ValueClause? && ws != [] then ws[..|ws| - 1] else ws
  }

  /** The same options with other values. */
  function Rebind(cs: seq<Clause>, ws: seq<AttributeValue>): (ds: seq<Clause>)
    ensures |ds| == |cs|
    decreases |cs|
  {
    if cs == [] then []
    else
      var last := cs[|cs| - 1];
      Rebind(cs[..|cs| - 1], Before(last, ws)) + [Relabel(last, ws)]
  }

  lemma RebindLast(cs: seq<Clause>, ws: seq<AttributeValue>)
    requires cs != [] && |ws| == |Vals(cs)|
    ensures var k, last := |cs| - 1, cs[|cs| - 1];
      && |Before(last, ws)| == |Vals(cs[..k])|
      && Rebind(cs, ws)[..k] == Rebind(cs[..k], Before(last, ws))
      && Rebind(cs, ws)[k] == Relabel(last, ws)
      && ws == Before(last, ws) + (if last.ValueClause? then [Relabel(last, ws).val] else [])
  {
    assert Vals(cs[..|cs| - 1]) + [] == Vals(cs[..|cs| - 1]);
  }

  lemma SameKind(c: Clause, ws: seq<AttributeValue>)
    ensures var d := Relabel(c, ws); SameClauseShape(c, d) && d.Kind() == c.Kind() && d.ValueClause? == c.ValueClause?
    ensures forall i :: PartText(Numbered(c, i)) == PartText(Numbered(Relabel(c, ws), i))
  {
  }

  lemma ValsLast(cs: seq<Clause>)
    requires cs != []
    ensures var last := cs[|cs| - 1];
      Vals(cs) == Vals(cs[..|cs| - 1]) + (if last.ValueClause? then [last.val] else [])
    ensures var before, action := FirstSeen(cs[..|cs| - 1]), cs[|cs| - 1].Kind();
      FirstSeen(cs) == if action in before then before else before + [action]
  {
  }

  lemma {:induction false} RebindKeeps(cs: seq<Clause>, ws: seq<AttributeValue>)
    requires |ws| == |Vals(cs)|
    ensures var ds := Rebind(cs, ws);
      && Vals(ds) == ws && FirstSeen(ds) == FirstSeen(cs) && SameShape(cs, ds)
    decreases |cs|
  {
    if cs != [] {
      hide *;
      var k, ds := |cs| - 1, Rebind(cs, ws);
      RebindLast(cs, ws);
      SameKind(cs[k], ws);
      RebindKeeps(cs[..k], Before(cs[k], ws));
      ValsLast(cs);
      ValsLast(ds);
      SameShapeLast(cs, ds);
    } else {
      assert Rebind(cs, ws) == [];
    }
  }

  /** Options that only differ in their values. */
  ghost predicate SameShape(cs: seq<Clause>, ds: seq<Clause>) {
    |cs| == |ds| && forall i :: 0 <= i < |cs| ==> SameClauseShape(cs[i], ds[i])
  }

  predicate SameClauseShape(c: Clause, d: Clause) {
    c.attr == d.attr && c.Kind() == d.Kind() && c.ValueClause? == d.ValueClause?
  }

  lemma SameShapeLast(cs: seq<Clause>, ds: seq<Clause>)
    requires cs != [] && |cs| == |ds| && SameShape(cs[..|cs| - 1], ds[..|cs| - 1])
    requires SameClauseShape(cs[|cs| - 1], ds[|cs| - 1])
    ensures SameShape(cs, ds)
  {
    hide SameClauseShape;
    forall i | 0 <= i < |cs| - 1
      ensures SameClauseShape(cs[i], ds[i])
    {
      assert cs[i] == cs[..|cs| - 1][i] && ds[i] == ds[..|cs| - 1][i];
    }
  }

  lemma SameShapeAttrs(cs: seq<Clause>, ds: seq<Clause>)
    requires SameShape(cs, ds) && ValidClauses(cs)
    ensures Attrs(ds) == Attrs(cs) && ValidClauses(ds)
  {
    forall x
      ensures x in Attrs(ds) <==> x in Attrs(cs)
    {
      if d :| d in ds && d.attr == x {
        var i :| 0 <= i < |ds| && ds[i] == d;
        assert cs[i] in cs;
      }
      if c :| c in cs && c.attr == x {
        var i :| 0 <= i < |cs| && cs[i] == c;
        assert ds[i] in ds;
      }
    }
  }

  /** Two groups whose parts are printed alike. */
  ghost predicate Alike(ns: seq<Numbered>, ms: seq<Numbered>) {
    |ns| == |ms| && forall i :: 0 <= i < |ns| ==> PartText(ns[i]) == PartText(ms[i])
  }

  lemma {:induction false} AlikeTexts(ns: seq<Numbered>, ms: seq<Numbered>)
    requires Alike(ns, ms)
    ensures PartTexts(ns) == PartTexts(ms)
  {
    hide PartText;
    if ns != [] {
      AlikeTexts(ns[1..], ms[1..]);
    }
  }

  lemma {:induction false} RebindGroups(cs: seq<Clause>, ws: seq<AttributeValue>, a: Action)
    requires |ws| == |Vals(cs)|
    ensures Alike(Group(cs, a), Group(Rebind(cs, ws), a))
    decreases |cs|
  {
    if cs == [] {
      assert Group(Rebind(cs, ws), a) == [];
    } else {
      hide *;
      var k, ds, us := |cs| - 1, Rebind(cs, ws), Before(cs[|cs| - 1], ws);
      RebindLast(cs, ws);
      SameKind(cs[k], ws);
      RebindGroups(cs[..k], us, a);
      RebindKeeps(cs[..k], us);
      GroupOf(cs, a);
      GroupOf(ds, a);
      AlikeSnoc(Group(cs[..k], a), Group(ds[..k], a), Numbered(cs[k], |us|), Numbered(ds[k], |us|));
    }
  }

  lemma GroupOf(cs: seq<Clause>, a: Action)
    requires cs != []
    ensures var init, last := cs[..|cs| - 1], cs[|cs| - 1];
      Group(cs, a) == if last.Kind() == a then Group(init, a) + [Numbered(last, |Vals(init)|)] else Group(init, a)
  {
    var init := cs[..|cs| - 1];
    assert Group(init, a) + [] == Group(init, a);
  }

  lemma AlikeSnoc(ns: seq<Numbered>, ms: seq<Numbered>, n: Numbered, m: Numbered)
    requires Alike(ns, ms) && PartText(n) == PartText(m)
    ensures Alike(ns + [n], ms + [m])
  {
    hide PartText;
  }

  lemma {:induction false} RebindSections(cs: seq<Clause>, ws: seq<AttributeValue>, actions: seq<Action>)
    requires |ws| == |Vals(cs)|
    ensures SectionTexts(cs, actions) == SectionTexts(Rebind(cs, ws), actions)
  {
    hide Group, Rebind, Vals;
    if actions != [] {
      RebindGroups(cs, ws, actions[0]);
      AlikeTexts(Group(cs, actions[0]), Group(Rebind(cs, ws), actions[0]));
      RebindSections(cs, ws, actions[1..]);
    }
  }

  // ---- The grouped clauses determine the values ----

  lemma {:induction false} OpsOfSnoc(ns: seq<Numbered>, n: Numbered)
    ensures OpsOf(ns + [n]) == OpsOf(ns) + [n.clause.Op()]
  {
    if ns == [] {
      assert ns + [n] == [n];
    } else {
      assert (ns + [n])[1..] == ns[1..] + [n];
      OpsOfSnoc(ns[1..], n);
    }
  }

  lemma {:induction false} OpsOfLength(ns: seq<Numbered>)
    ensures |OpsOf(ns)| == |ns|
  {
    if ns != [] {
      OpsOfLength(ns[1..]);
    }
  }

  lemma GroupLastOp(cs: seq<Clause>, a: Action)
    requires cs != []
    ensures var init, last := cs[..|cs| - 1], cs[|cs| - 1];
      OpsOf(Group(cs, a)) == OpsOf(Group(init, a)) + (if last.Kind() == a then [last.Op()] else [])
  {
    var init, last := cs[..|cs| - 1], cs[|cs| - 1];
    OpsOfSnoc(Group(init, a), Numbered(last, |Vals(init)|));
    hide OpsOf;
    assert Group(init, a) + [] == Group(init, a);
  }

  /** Equal groups mean equal options, for options that only differ in values. */
  lemma {:induction false} GroupsDetermine(cs: seq<Clause>, ds: seq<Clause>)
    requires |cs| == |ds| && forall i :: 0 <= i < |cs| ==> cs[i].Kind() == ds[i].Kind()
    requires forall i :: 0 <= i < |cs| ==> cs[i].ValueClause? == ds[i].ValueClause?
    requires forall a :: OpsOf(Group(cs, a)) == OpsOf(Group(ds, a))
    ensures cs == ds
  {
    if cs != [] {
      var k := |cs| - 1;
      hide Group, OpsOf;
      forall a
        ensures OpsOf(Group(cs[..k], a)) == OpsOf(Group(ds[..k], a))
      {
        GroupLastOp(cs, a);
        GroupLastOp(ds, a);
        var xs, ys := OpsOf(Group(cs[..k], a)), OpsOf(Group(ds[..k], a));
        assert xs + [] == xs && ys + [] == ys;
        if cs[k].Kind() == a {
          assert (xs + [cs[k].Op()])[..|xs|] == xs && (ys + [ds[k].Op()])[..|ys|] == ys;
        }
      }
      GroupLastOp(cs, cs[k].Kind());
      GroupLastOp(ds, cs[k].Kind());
      var xs, ys := OpsOf(Group(cs[..k], cs[k].Kind())), OpsOf(Group(ds[..k], cs[k].Kind()));
      assert (xs + [cs[k].Op()])[|xs|] == cs[k].Op() && (ys + [ds[k].Op()])[|xs|] == ds[k].Op();
      GroupsDetermine(cs[..k], ds[..k]);
      assert cs == cs[..k] + [cs[k]] && ds == ds[..k] + [ds[k]];
    }
  }

  lemma {:induction false} GroupedDetermines(cs: seq<Clause>, ds: seq<Clause>, actions: seq<Action>)
    requires GroupedBy(cs, actions) == GroupedBy(ds, actions)
    requires forall a :: |Group(cs, a)| == |Group(ds, a)|
    ensures forall a :: a in actions ==> OpsOf(Group(cs, a)) == OpsOf(Group(ds, a))
    decreases |actions|
  {
    hide Group, OpsOf;
    if actions != [] {
      var a := actions[0];
      var xs, ys := OpsOf(Group(cs, a)), OpsOf(Group(ds, a));
      var us, vs := GroupedBy(cs, actions[1..]), GroupedBy(ds, actions[1..]);
      OpsOfLength(Group(cs, a));
      OpsOfLength(Group(ds, a));
      assert (xs + us)[..|xs|] == xs && (ys + vs)[..|xs|] == ys;
      assert (xs + us)[|xs|..] == us && (ys + vs)[|xs|..] == vs;
      GroupedDetermines(cs, ds, actions[1..]);
    }
  }

  lemma SameGroupedSameValues(cs: seq<Clause>, ws: seq<AttributeValue>)
    requires |ws| == |Vals(cs)| && Grouped(cs) == Grouped(Rebind(cs, ws))
    ensures ws == Vals(cs)
  {
    var ds := Rebind(cs, ws);
    RebindKeeps(cs, ws);
    hide Group, OpsOf, Vals, Rebind, FirstSeen;
    forall a
      ensures |Group(cs, a)| == |Group(ds, a)|
    {
      RebindGroups(cs, ws, a);
    }
    GroupedDetermines(cs, ds, FirstSeen(cs));
    forall a
      ensures OpsOf(Group(cs, a)) == OpsOf(Group(ds, a))
    {
      GroupsOfOthersAreEmpty(cs, a);
      if a !in FirstSeen(cs) {
        assert Group(cs, a) == [] && Group(ds, a) == [];
      }
    }
    GroupsDetermine(cs, ds);
  }

  // ---- The request with its condition ----

  /** The maps of the request: the condition's entries win. */
  function RequestEnv(names: map<string, string>, cs: seq<Clause>, c: ConditionExpr): Env {
    Env(names + c.names, AddValues(map[], Vals(cs), 0) + c.values)
  }

  /** No value of the update is overwritten by a different value of the condition. */
  predicate ValuesSurvive(cs: seq<Clause>, c: ConditionExpr) {
    forall i :: 0 <= i < |Vals(cs)| && Placeholder(i) in c.values ==> c.values[Placeholder(i)] == Vals(cs)[i]
  }

  /** What memdb reads each numbered value as. */
  function Seen(cs: seq<Clause>, env: Env): (ws: seq<AttributeValue>)
    requires forall i :: 0 <= i < |Vals(cs)| ==> Placeholder(i) in env.values
    ensures |ws| == |Vals(cs)|
  {
    seq(|Vals(cs)|, i requires 0 <= i < |Vals(cs)| => env.values[Placeholder(i)])
  }

  lemma RequestNames(names: map<string, string>, cs: seq<Clause>, c: ConditionExpr)
    requires names.Keys == AliasSet(Attrs(cs)) && WellNamed(names) && WellNamed(c.names)
    ensures HasNames(RequestEnv(names, cs, c), Attrs(cs))
  {
    var all := names + c.names;
    forall x | x in Attrs(cs)
      ensures Lookup(all, Alias(x)) == Some(x)
    {
      assert Alias(x) in names;
      assert Alias(all[Alias(x)])[1..] == Alias(x)[1..];
    }
  }

  lemma RequestValues(names: map<string, string>, cs: seq<Clause>, c: ConditionExpr)
    ensures var env := RequestEnv(names, cs, c);
      && (forall i :: 0 <= i < |Vals(cs)| ==> Placeholder(i) in env.values)
      && HasValues(env.values, Seen(cs, env), 0)
      && (Seen(cs, env) == Vals(cs) <==> ValuesSurvive(cs, c))
  {
    var vals, env := Vals(cs), RequestEnv(names, cs, c);
    AddedValuesAreFound(map[], vals, 0);
    hide Vals, AddValues, Placeholder;
    forall i | 0 <= i < |vals|
      ensures Placeholder(i) in env.values
      ensures env.values[Placeholder(i)] == if Placeholder(i) in c.values then c.values[Placeholder(i)] else vals[i]
    {
      assert Lookup(AddValues(map[], vals, 0), Placeholder(0 + i)) == Some(vals[i]);
    }
    var ws := Seen(cs, env);
    assert forall i :: 0 <= i < |vals| ==> ws[i] == env.values[Placeholder(i)];
    assert ws == vals <==> forall i :: 0 <= i < |vals| ==> ws[i] == vals[i];
  }

  /** memdb reads the clauses with the values it sees. */
  lemma RequestMeaning(names: map<string, string>, cs: seq<Clause>, c: ConditionExpr)
    requires ValidClauses(cs)
    requires names.Keys == AliasSet(Attrs(cs)) && WellNamed(names) && WellNamed(c.names)
    ensures var env := RequestEnv(names, cs, c);
      && (forall i :: 0 <= i < |Vals(cs)| ==> Placeholder(i) in env.values)
      && ParseUpdate(UpdateText(cs), env) == Done(Grouped(Rebind(cs, Seen(cs, env))), [])
  {
    var env := RequestEnv(names, cs, c);
    RequestNames(names, cs, c);
    RequestValues(names, cs, c);
    var ws := Seen(cs, env);
    var ds := Rebind(cs, ws);
    RebindKeeps(cs, ws);
    RebindSections(cs, ws, FirstSeen(cs));
    hide *;
    UpdateTextOf(cs);
    UpdateTextOf(ds);
    SameShapeAttrs(cs, ds);
    CompileThenParse(ds, env);
  }

  /** The update of a conditional request is the one that was asked for exactly
      when the condition overwrites none of its values with another one. */
  lemma ConditionalUpdateIff(names: map<string, string>, cs: seq<Clause>, c: ConditionExpr)
    requires ValidClauses(cs)
    requires names.Keys == AliasSet(Attrs(cs)) && WellNamed(names) && WellNamed(c.names)
    ensures ParseUpdate(UpdateText(cs), RequestEnv(names, cs, c)) == Done(Grouped(cs), []) <==> ValuesSurvive(cs, c)
  {
    var env := RequestEnv(names, cs, c);
    RequestMeaning(names, cs, c);
    RequestValues(names, cs, c);
    RebindToItself(cs);
    hide Vals, Rebind, Seen, RequestEnv, Grouped, ParseUpdate, ValuesSurvive;
    if Grouped(Rebind(cs, Seen(cs, env))) == Grouped(cs) {
      SameGroupedSameValues(cs, Seen(cs, env));
    }
  }

  lemma {:induction false} RebindToItself(cs: seq<Clause>)
    ensures Rebind(cs, Vals(cs)) == cs
  {
    if cs != [] {
      var init, last := cs[..|cs| - 1], cs[|cs| - 1];
      assert Vals(init) + [] == Vals(init);
      RebindToItself(init);
      assert last.ValueClause? ==> Vals(cs)[..|Vals(cs)| - 1] == Vals(init);
      assert cs == init + [last];
    }
  }
}
