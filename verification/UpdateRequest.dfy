/** buildUpdateRequest (update.go): compiling Set/Add/Remove/Delete options into
    one update expression, grouped by action. */
module UpdateRequest {
  import opened Base
  import opened Values
  import opened Translate
  import opened Condition
  import opened UpdateExpr

  /** One option. */
  datatype Clause =
    | ValueClause(action: Action, attr: string, val: AttributeValue)
    | RemoveClause(attr: string)
  {
    function Kind(): Action { if ValueClause? then action else REMOVE }

    /** The clause as memdb's evaluator sees it. */
    function Op(): UpdateOp {
      if ValueClause? then ValueOp(action, [attr], Literal(val)) else RemoveOp([attr])
    }
  }

  predicate ValidClauses(cs: seq<Clause>) {
    forall i :: 0 <= i < |cs| ==> AllIdentPart(cs[i].attr) && (cs[i].ValueClause? ==> cs[i].action != REMOVE)
  }

  /** The values in the order in which they are numbered. */
  function Vals(cs: seq<Clause>): seq<AttributeValue> {
    if cs == [] then []
    else
      var last := cs[|cs| - 1];
      Vals(cs[..|cs| - 1]) + if last.ValueClause? then [last.val] else []
  }

  function Attrs(cs: seq<Clause>): set<string> { set c | c in cs :: c.attr }

  /** The actions in first-seen order. */
  function FirstSeen(cs: seq<Clause>): seq<Action> {
    if cs == [] then []
    else
      var before, action := FirstSeen(cs[..|cs| - 1]), cs[|cs| - 1].Kind();
      if action in before then before else before + [action]
  }

  /** A clause and the number of its value. */
  datatype Numbered = Numbered(clause: Clause, index: nat)

  /** The clauses of one action, in option order. */
  function Group(cs: seq<Clause>, a: Action): seq<Numbered> {
    if cs == [] then []
    else
      var init, last := cs[..|cs| - 1], cs[|cs| - 1];
      Group(init, a) + if last.Kind() == a then [Numbered(last, |Vals(init)|)] else []
  }

  // ---- The text ----

  function PartText(n: Numbered): string {
    var alias := Alias(n.clause.attr);
    match n.clause.Kind()
    case SET => alias + " = " + Placeholder(n.index)
    case REMOVE => alias
    case _ => alias + " " + Placeholder(n.index)
  }

  function PartTexts(ns: seq<Numbered>): (ts: seq<string>)
    ensures |ts| == |ns|
  {
    if ns == [] then [] else [PartText(ns[0])] + PartTexts(ns[1..])
  }

  function SectionText(cs: seq<Clause>, a: Action): string {
    ActionName(a) + " " + Join(PartTexts(Group(cs, a)), ", ")
  }

  function SectionTexts(cs: seq<Clause>, actions: seq<Action>): (ts: seq<string>)
    ensures |ts| == |actions|
  {
    if actions == [] then [] else [SectionText(cs, actions[0])] + SectionTexts(cs, actions[1..])
  }

  function UpdateText(cs: seq<Clause>): string { Join(SectionTexts(cs, FirstSeen(cs)), " ") }

  // ---- The loops of buildUpdateRequest ----

  datatype ActionGroup = ActionGroup(action: Action, parts: seq<string>)

  lemma {:induction false} PartTextsSnoc(ns: seq<Numbered>, n: Numbered)
    ensures PartTexts(ns + [n]) == PartTexts(ns) + [PartText(n)]
  {
    if ns == [] {
      assert ns + [n] == [n];
    } else {
      assert (ns + [n])[1..] == ns[1..] + [n];
      PartTextsSnoc(ns[1..], n);
    }
  }

  /** What one more clause adds. */
  lemma OneMoreClause(cs: seq<Clause>, i: nat)
    requires i < |cs|
    ensures var init, c, more := cs[..i], cs[i], cs[..i + 1];
      && Vals(more) == Vals(init) + (if c.ValueClause? then [c.val] else [])
      && Attrs(more) == Attrs(init) + {c.attr}
      && FirstSeen(more) == (if c.Kind() in FirstSeen(init) then FirstSeen(init) else FirstSeen(init) + [c.Kind()])
      && (forall a :: a != c.Kind() ==> Group(more, a) == Group(init, a))
      && Group(more, c.Kind()) == Group(init, c.Kind()) + [Numbered(c, |Vals(init)|)]
  {
    assert cs[..i + 1][..i] == cs[..i];
  }

  lemma {:induction false} GroupsOfOthersAreEmpty(cs: seq<Clause>, a: Action)
    ensures a in FirstSeen(cs) <==> Group(cs, a) != []
  {
    if cs != [] {
      GroupsOfOthersAreEmpty(cs[..|cs| - 1], a);
    }
  }

  predicate Distinct(f: seq<Action>) { forall i, j :: 0 <= i < j < |f| ==> f[i] != f[j] }

  lemma DistinctSnoc(f: seq<Action>, a: Action)
    requires Distinct(f) && a !in f
    ensures Distinct(f + [a])
  {
    forall i, j | 0 <= i < j < |f + [a]|
      ensures (f + [a])[i] != (f + [a])[j]
    {
      assert (f + [a])[i] == f[i];
      if j < |f| {
        assert (f + [a])[j] == f[j];
      } else {
        assert f[i] in f;
      }
    }
  }

  lemma {:induction false} FirstSeenDistinct(cs: seq<Clause>)
    ensures Distinct(FirstSeen(cs))
  {
    if cs != [] {
      var before, action := FirstSeen(cs[..|cs| - 1]), cs[|cs| - 1].Kind();
      FirstSeenDistinct(cs[..|cs| - 1]);
      if action !in before {
        DistinctSnoc(before, action);
      }
    }
  }

  /** The groups built so far describe the clauses cs. */
  ghost predicate GroupsOf(cs: seq<Clause>, groups: seq<ActionGroup>, groupMap: map<Action, nat>) {
    && |groups| == |FirstSeen(cs)|
    && (forall g :: 0 <= g < |groups| ==> groups[g] == ActionGroup(FirstSeen(cs)[g], PartTexts(Group(cs, FirstSeen(cs)[g]))))
    && (forall a :: a in groupMap <==> a in FirstSeen(cs))
    && (forall a :: a in groupMap ==> groupMap[a] < |groups| && FirstSeen(cs)[groupMap[a]] == a)
  }

  lemma AddToOldGroup(cs: seq<Clause>, i: nat, groups: seq<ActionGroup>, groupMap: map<Action, nat>)
    requires i < |cs| && GroupsOf(cs[..i], groups, groupMap) && cs[i].Kind() in groupMap
    ensures var g, part := groupMap[cs[i].Kind()], PartText(Numbered(cs[i], |Vals(cs[..i])|));
      g < |groups| && GroupsOf(cs[..i + 1], groups[g := ActionGroup(groups[g].action, groups[g].parts + [part])], groupMap)
  {
    hide Vals, FirstSeen, Group, PartText, PartTexts;
    var init, more, a := cs[..i], cs[..i + 1], cs[i].Kind();
    var g, n, order := groupMap[a], Numbered(cs[i], |Vals(init)|), FirstSeen(init);
    var groups' := groups[g := ActionGroup(groups[g].action, groups[g].parts + [PartText(n)])];
    OneMoreClause(cs, i);
    FirstSeenDistinct(init);
    PartTextsSnoc(Group(init, a), n);
    forall h | 0 <= h < |groups|
      ensures groups'[h] == ActionGroup(order[h], PartTexts(Group(more, order[h])))
    {
      assert groups[h] == ActionGroup(order[h], PartTexts(Group(init, order[h])));
      assert order[h] == a <==> h == g;
    }
  }

  lemma AddNewGroup(cs: seq<Clause>, i: nat, groups: seq<ActionGroup>, groupMap: map<Action, nat>)
    requires i < |cs| && GroupsOf(cs[..i], groups, groupMap) && cs[i].Kind() !in groupMap
    ensures var a, part := cs[i].Kind(), PartText(Numbered(cs[i], |Vals(cs[..i])|));
      GroupsOf(cs[..i + 1], groups + [ActionGroup(a, [part])], groupMap[a := |groups|])
  {
    hide Vals, FirstSeen, Group, PartText, PartTexts;
    var init, more, a := cs[..i], cs[..i + 1], cs[i].Kind();
    var n, order := Numbered(cs[i], |Vals(init)|), FirstSeen(init);
    OneMoreClause(cs, i);
    GroupsOfOthersAreEmpty(init, a);
    OnePart(n);
    assert Group(more, a) == [n];
    assert FirstSeen(more) == order + [a];
    forall h | 0 <= h < |groups|
      ensures groups[h] == ActionGroup(order[h], PartTexts(Group(more, order[h])))
    {
      assert order[h] in order;
    }
  }

  lemma OnePart(n: Numbered)
    ensures PartTexts([n]) == [PartText(n)]
  {
  }

  method BuildUpdateRequest(cs: seq<Clause>, condition: Option<ConditionExpr>)
    returns (updateExpr: string, names: map<string, string>, values: map<string, AttributeValue>)
    ensures updateExpr == UpdateText(cs)
    ensures var own := AddValues(map[], Vals(cs), 0);
      values == match condition case Some(c) => own + c.values case None => own
    ensures exists own: map<string, string> ::
      && own.Keys == AliasSet(Attrs(cs)) && WellNamed(own)
      && names == match condition case Some(c) => own + c.names case None => own
  {
    hide *;
    names, values := map[], map[];
    var valueIdx := 0;
    var groups: seq<ActionGroup> := [];
    var groupMap: map<Action, nat> := map[];
    NoClauses();
    assert cs[..0] == [];
    for i := 0 to |cs|
      invariant valueIdx == |Vals(cs[..i])| && values == AddValues(map[], Vals(cs[..i]), 0)
      invariant names.Keys == AliasSet(Attrs(cs[..i])) && WellNamed(names)
      invariant GroupsOf(cs[..i], groups, groupMap)
    {
      var cl := cs[i];
      var alias := "#" + cl.attr;
      OneMoreClause(cs, i);
      StaysWellNamed(names, cl.attr);
      AliasSetUnion(Attrs(cs[..i]), {cl.attr});
      PartTextOf(Numbered(cl, valueIdx));
      names := names[alias := cl.attr];
      var part := alias;
      assert Vals(cs[..i]) + [] == Vals(cs[..i]);
      if cl.ValueClause? {
        var placeholder := ":v" + NatToString(valueIdx);
        AddValuesConcat(map[], Vals(cs[..i]), [cl.val], 0);
        OneValue(values, cl.val, valueIdx);
        PlaceholderOf(valueIdx);
        values := values[placeholder := cl.val];
        valueIdx := valueIdx + 1;
        part := if cl.action == SET then alias + " = " + placeholder
                else if cl.action == REMOVE then alias
                else alias + " " + placeholder;
      }
      if cl.Kind() !in groupMap {
        AddNewGroup(cs, i, groups, groupMap);
        groupMap := groupMap[cl.Kind() := |groups|];
        groups := groups + [ActionGroup(cl.Kind(), [part])];
      } else {
        AddToOldGroup(cs, i, groups, groupMap);
        var g := groupMap[cl.Kind()];
        groups := groups[g := ActionGroup(groups[g].action, groups[g].parts + [part])];
      }
    }
    assert cs[..|cs|] == cs;
    var sections := WriteSections(cs, groups, groupMap);
    UpdateTextOf(cs);
    updateExpr := Join(sections, " ");
    ghost var own := names;
    if condition.Some? {
      names := CopyInto(names, condition.value.names);
      values := CopyInto(values, condition.value.values);
    }
  }

  method WriteSections(ghost cs: seq<Clause>, groups: seq<ActionGroup>, ghost groupMap: map<Action, nat>) returns (sections: seq<string>)
    requires GroupsOf(cs, groups, groupMap)
    ensures sections == SectionTexts(cs, FirstSeen(cs))
  {
    hide *;
    sections := [];
    ghost var order := FirstSeen(cs);
    GroupsCount(cs, groups, groupMap);
    assert order[0..] == order;
    for g := 0 to |groups|
      invariant sections + SectionTexts(cs, order[g..]) == SectionTexts(cs, order)
    {
      SectionAt(cs, groups, groupMap, g);
      sections := sections + [ActionName(groups[g].action) + " " + Join(groups[g].parts, ", ")];
    }
  }

  lemma GroupsCount(cs: seq<Clause>, groups: seq<ActionGroup>, groupMap: map<Action, nat>)
    requires GroupsOf(cs, groups, groupMap)
    ensures |groups| == |FirstSeen(cs)| && SectionTexts(cs, FirstSeen(cs)[|groups|..]) == []
  {
  }

  lemma SectionAt(cs: seq<Clause>, groups: seq<ActionGroup>, groupMap: map<Action, nat>, g: nat)
    requires GroupsOf(cs, groups, groupMap) && g < |groups|
    ensures var order := FirstSeen(cs);
      |groups| == |order| &&
      SectionTexts(cs, order[g..])
      == [ActionName(groups[g].action) + " " + Join(groups[g].parts, ", ")] + SectionTexts(cs, order[g + 1..])
  {
    hide FirstSeen, Group, PartTexts, Join, ActionName;
    assert FirstSeen(cs)[g..][1..] == FirstSeen(cs)[g + 1..];
  }

  lemma NoClauses()
    ensures Vals([]) == [] && AddValues(map[], [], 0) == map[]
    ensures AliasSet(Attrs([])) == {} && WellNamed(map[]) && GroupsOf([], [], map[])
  {
  }

  lemma PlaceholderOf(i: nat)
    ensures Placeholder(i) == ":v" + NatToString(i)
  {
  }

  lemma UpdateTextOf(cs: seq<Clause>)
    ensures UpdateText(cs) == Join(SectionTexts(cs, FirstSeen(cs)), " ")
  {
  }

  lemma PartTextOf(n: Numbered)
    ensures var alias, placeholder := "#" + n.clause.attr, ":v" + NatToString(n.index);
      && (n.clause.RemoveClause? ==> PartText(n) == alias && n.clause.Kind() == REMOVE)
      && (n.clause.ValueClause? ==> n.clause.Kind() == n.clause.action)
      && (n.clause.ValueClause? ==>
          PartText(n) == if n.clause.action == SET then alias + " = " + placeholder
                            else if n.clause.action == REMOVE then alias
                            else alias + " " + placeholder)
  {
  }
}
