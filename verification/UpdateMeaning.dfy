/** Compiling update options (update.go) preserves what they mean: grouping them
    by action does not change the resulting item, and a condition may not reuse
    the placeholders of their values. */
module UpdateMeaning {
  import opened Base
  import opened Values
  import opened Parser
  import opened Translate
  import opened RoundTrip
  import opened Condition
  import opened Paths
  import opened UpdateExpr
  import opened UpdateEval
  import opened UpdateRequest
  import opened UpdateCompile

  // ---- One clause acts on one attribute ----

  predicate ValidClause(c: Clause) { c.ValueClause? ==> c.action != REMOVE }

  /** What a clause makes of the value of its attribute. */
  function Effect(c: Clause, top: Option<AttributeValue>): Result<Option<AttributeValue>> {
    match c
    case RemoveClause(_) => Ok(None)
    case ValueClause(action, _, val) =>
      match action
      case SET => Ok(Some(val))
      case ADD => (
        match Added(top, val)
        case Ok(sum) => Ok(Some(sum))
        case Err => Err)
      case _ => (
        match Deleted(top, val)
        case Some(left) => Ok(Some(left))
        case None => Ok(top))
  }

  function With(item: Item, attr: string, top: Option<AttributeValue>): Item {
    match top case Some(v) => item[attr := v] case None => item - {attr}
  }

  lemma OpIsEffect(c: Clause, item: Item)
    requires ValidClause(c)
    ensures ValidOp(c.Op())
    ensures EvalOp(c.Op(), item) ==
      match Effect(c, Lookup(item, c.attr))
      case Ok(top) => Ok(With(item, c.attr, top))
      case Err => Err
  {
    hide Added, Deleted;
    var attr := c.attr;
    assert Resolve([attr], item) == Lookup(item, attr);
    assert With(item, attr, Lookup(item, attr)) == item;
  }

  // ---- Lists of clauses on distinct attributes ----

  function Ops(cs: seq<Clause>): seq<UpdateOp> {
    if cs == [] then [] else [cs[0].Op()] + Ops(cs[1..])
  }

  predicate AllValid(cs: seq<Clause>) { forall c :: c in cs ==> ValidClause(c) }

  predicate DistinctAttrs(cs: seq<Clause>) {
    cs != [] ==> cs[0].attr !in Attrs(cs[1..]) && DistinctAttrs(cs[1..])
  }

  lemma {:induction false} OpsAreValid(cs: seq<Clause>)
    requires AllValid(cs)
    ensures |Ops(cs)| == |cs| && ValidOps(Ops(cs))
  {
    if cs != [] {
      OpsAreValid(cs[1..]);
      assert cs[0] in cs && ValidOp(cs[0].Op());
      assert forall i :: 1 <= i < |cs| ==> Ops(cs)[i] == Ops(cs[1..])[i - 1];
    }
  }

  function EvalClauses(cs: seq<Clause>, item: Item): Result<Item>
    requires AllValid(cs)
  {
    OpsAreValid(cs);
    EvalOps(Ops(cs), item)
  }

  lemma EvalFirst(cs: seq<Clause>, item: Item)
    requires cs != [] && AllValid(cs)
    ensures EvalClauses(cs, item) ==
      match Effect(cs[0], Lookup(item, cs[0].attr))
      case Ok(top) => EvalClauses(cs[1..], With(item, cs[0].attr, top))
      case Err => Err
  {
    OpsAreValid(cs);
    OpIsEffect(cs[0], item);
    hide Effect, EvalOp;
    assert Ops(cs)[0] == cs[0].Op() && Ops(cs)[1..] == Ops(cs[1..]);
  }

  /** c fails on the item it is given. */
  predicate Fails(c: Clause, item: Item) { Effect(c, Lookup(item, c.attr)).Err? }

  /** The result says, attribute by attribute, what the clauses say. */
  ghost predicate Pointwise(cs: seq<Clause>, item: Item, r: Item) {
    && (forall c :: c in cs ==> Effect(c, Lookup(item, c.attr)) == Ok(Lookup(r, c.attr)))
    && (forall attr :: attr !in Attrs(cs) ==> Lookup(r, attr) == Lookup(item, attr))
  }

  lemma {:induction false} EvalIsPointwise(cs: seq<Clause>, item: Item)
    requires AllValid(cs) && DistinctAttrs(cs)
    ensures match EvalClauses(cs, item)
            case Err => exists c :: c in cs && Fails(c, item)
            case Ok(r) => Pointwise(cs, item, r)
    decreases |cs|
  {
    hide Effect;
    if cs == [] {
      assert EvalClauses(cs, item) == Ok(item);
    } else {
      hide EvalClauses, With, Pointwise, DistinctAttrs;
      EvalFirst(cs, item);
      var c, rest := cs[0], cs[1..];
      var top := Effect(c, Lookup(item, c.attr));
      if top.Err? {
        assert c in cs && Fails(c, item);
      } else {
        var next := With(item, c.attr, top.value);
        DistinctTail(cs);
        EvalIsPointwise(rest, next);
        WithElsewhere(item, c.attr, top.value);
        if EvalClauses(rest, next).Err? {
          var d :| d in rest && Fails(d, next);
          assert d.attr != c.attr;
          assert d in cs && Fails(d, item);
        } else {
          PointwiseCons(cs, item, next, EvalClauses(rest, next).value);
        }
      }
    }
  }

  lemma DistinctTail(cs: seq<Clause>)
    requires cs != [] && DistinctAttrs(cs)
    ensures DistinctAttrs(cs[1..]) && Attrs(cs) == {cs[0].attr} + Attrs(cs[1..]) && cs[0].attr !in Attrs(cs[1..])
    ensures forall d :: d in cs[1..] ==> d.attr != cs[0].attr
  {
    assert forall d :: d in cs[1..] ==> d.attr in Attrs(cs[1..]);
  }

  lemma PointwiseCons(cs: seq<Clause>, item: Item, next: Item, r: Item)
    requires cs != [] && Attrs(cs) == {cs[0].attr} + Attrs(cs[1..]) && cs[0].attr !in Attrs(cs[1..])
    requires forall d :: d in cs[1..] ==> d.attr != cs[0].attr
    requires Effect(cs[0], Lookup(item, cs[0].attr)) == Ok(Lookup(next, cs[0].attr))
    requires forall a :: a != cs[0].attr ==> Lookup(next, a) == Lookup(item, a)
    requires Pointwise(cs[1..], next, r)
    ensures Pointwise(cs, item, r)
  {
    hide Effect, Lookup, Attrs;
    forall c | c in cs
      ensures Effect(c, Lookup(item, c.attr)) == Ok(Lookup(r, c.attr))
    {
      if c != cs[0] {
        assert cs == [cs[0]] + cs[1..];
      }
    }
  }

  lemma WithElsewhere(item: Item, attr: string, top: Option<AttributeValue>)
    ensures Lookup(With(item, attr, top), attr) == top
    ensures forall a :: a != attr ==> Lookup(With(item, attr, top), a) == Lookup(item, a)
  {
  }

  lemma SameLookups(a: Item, b: Item)
    requires forall k :: Lookup(a, k) == Lookup(b, k)
    ensures a == b
  {
    forall k
      ensures k in a <==> k in b
      ensures k in a ==> a[k] == b[k]
    {
      assert Lookup(a, k) == Lookup(b, k);
    }
  }

  /** Two lists of the same clauses on distinct attributes have the same result. */
  lemma OrderDoesNotMatter(cs: seq<Clause>, ds: seq<Clause>, item: Item)
    requires AllValid(cs) && DistinctAttrs(cs) && DistinctAttrs(ds)
    requires forall c :: c in cs <==> c in ds
    ensures AllValid(ds) && EvalClauses(cs, item) == EvalClauses(ds, item)
  {
    EvalIsPointwise(cs, item);
    EvalIsPointwise(ds, item);
    hide EvalClauses, DistinctAttrs, Effect;
    var r, s := EvalClauses(cs, item), EvalClauses(ds, item);
    if r.Ok? && s.Ok? {
      assert Attrs(cs) == Attrs(ds);
      forall k
        ensures Lookup(r.value, k) == Lookup(s.value, k)
      {
        if k in Attrs(cs) {
          var c :| c in cs && c.attr == k;
        }
      }
      SameLookups(r.value, s.value);
    }
  }

  // ---- Grouping permutes ----

  function ClausesOf(ns: seq<Numbered>): seq<Clause> {
    if ns == [] then [] else [ns[0].clause] + ClausesOf(ns[1..])
  }

  function GroupedClausesBy(cs: seq<Clause>, actions: seq<Action>): seq<Clause> {
    if actions == [] then [] else ClausesOf(Group(cs, actions[0])) + GroupedClausesBy(cs, actions[1..])
  }

  lemma {:induction false} OpsOfClauses(ns: seq<Numbered>)
    ensures OpsOf(ns) == Ops(ClausesOf(ns))
  {
    if ns != [] {
      OpsOfClauses(ns[1..]);
    }
  }

  lemma {:induction false} OpsConcat(a: seq<Clause>, b: seq<Clause>)
    ensures Ops(a + b) == Ops(a) + Ops(b)
  {
    if a == [] {
      assert a + b == b;
    } else {
      assert (a + b)[1..] == a[1..] + b;
      OpsConcat(a[1..], b);
    }
  }

  lemma {:induction false} GroupedOps(cs: seq<Clause>, actions: seq<Action>)
    ensures GroupedBy(cs, actions) == Ops(GroupedClausesBy(cs, actions))
  {
    if actions != [] {
      GroupedOps(cs, actions[1..]);
      OpsOfClauses(Group(cs, actions[0]));
      OpsConcat(ClausesOf(Group(cs, actions[0])), GroupedClausesBy(cs, actions[1..]));
    }
  }

  lemma {:induction false} ClausesOfSnoc(ns: seq<Numbered>, n: Numbered)
    ensures ClausesOf(ns + [n]) == ClausesOf(ns) + [n.clause]
  {
    if ns == [] {
      assert ns + [n] == [n];
    } else {
      assert (ns + [n])[1..] == ns[1..] + [n];
      ClausesOfSnoc(ns[1..], n);
    }
  }

  lemma GroupLast(cs: seq<Clause>, a: Action)
    requires cs != []
    ensures var init, last := cs[..|cs| - 1], cs[|cs| - 1];
      && cs == init + [last]
      && ClausesOf(Group(cs, a)) == ClausesOf(Group(init, a)) + (if last.Kind() == a then [last] else [])
  {
    var init, last := cs[..|cs| - 1], cs[|cs| - 1];
    ClausesOfSnoc(Group(init, a), Numbered(last, |Vals(init)|));
    hide ClausesOf;
    assert Group(init, a) + [] == Group(init, a);
  }

  /** A group holds exactly the clauses of its action. */
  lemma {:induction false} GroupIsFilter(cs: seq<Clause>, a: Action)
    ensures forall c :: c in ClausesOf(Group(cs, a)) <==> c in cs && c.Kind() == a
  {
    if cs != [] {
      var init, last := cs[..|cs| - 1], cs[|cs| - 1];
      GroupIsFilter(init, a);
      GroupLast(cs, a);
      hide Group, ClausesOf;
    } else {
      assert ClausesOf([]) == [];
    }
  }

  lemma {:induction false} DistinctConcat(a: seq<Clause>, b: seq<Clause>)
    ensures DistinctAttrs(a + b) <==> DistinctAttrs(a) && DistinctAttrs(b) && Attrs(a) !! Attrs(b)
  {
    if a == [] {
      assert a + b == b;
    } else {
      assert (a + b)[1..] == a[1..] + b;
      assert Attrs(a[1..] + b) == Attrs(a[1..]) + Attrs(b);
      assert Attrs(a) == {a[0].attr} + Attrs(a[1..]);
      DistinctConcat(a[1..], b);
    }
  }

  /** Distinct attributes identify clauses. */
  lemma {:induction false} SameAttrSameClause(cs: seq<Clause>, c: Clause, d: Clause)
    requires DistinctAttrs(cs) && c in cs && d in cs && c.attr == d.attr
    ensures c == d
  {
    var rest := cs[1..];
    assert forall x :: x in rest ==> x.attr in Attrs(rest);
    if c != cs[0] && d != cs[0] {
      SameAttrSameClause(rest, c, d);
    }
  }

  lemma {:induction false} GroupIsDistinct(cs: seq<Clause>, a: Action)
    requires DistinctAttrs(cs)
    ensures DistinctAttrs(ClausesOf(Group(cs, a)))
  {
    if cs != [] {
      var init, last := cs[..|cs| - 1], cs[|cs| - 1];
      GroupLast(cs, a);
      hide Group, ClausesOf, DistinctAttrs;
      var before := ClausesOf(Group(init, a));
      DistinctConcat(init, [last]);
      GroupIsDistinct(init, a);
      GroupIsFilter(init, a);
      DistinctConcat(before, [last]);
      assert before + [] == before;
    } else {
      assert ClausesOf([]) == [];
    }
  }

  lemma {:induction false} GroupedMembers(cs: seq<Clause>, actions: seq<Action>)
    ensures forall c :: c in GroupedClausesBy(cs, actions) <==> c in cs && c.Kind() in actions
  {
    if actions != [] {
      GroupedMembers(cs, actions[1..]);
      GroupIsFilter(cs, actions[0]);
      assert actions == [actions[0]] + actions[1..];
      hide Group;
    }
  }

  lemma {:induction false} GroupedIsDistinct(cs: seq<Clause>, actions: seq<Action>)
    requires DistinctAttrs(cs) && Distinct(actions)
    ensures DistinctAttrs(GroupedClausesBy(cs, actions))
  {
    if actions != [] {
      hide DistinctAttrs, Group;
      var first, others := ClausesOf(Group(cs, actions[0])), GroupedClausesBy(cs, actions[1..]);
      GroupIsDistinct(cs, actions[0]);
      GroupedIsDistinct(cs, actions[1..]);
      GroupIsFilter(cs, actions[0]);
      GroupedMembers(cs, actions[1..]);
      if attr :| attr in Attrs(first) && attr in Attrs(others) {
        var c :| c in first && c.attr == attr;
        var d :| d in others && d.attr == attr;
        SameAttrSameClause(cs, c, d);
        assert false;
      }
      DistinctConcat(first, others);
    }
  }

  lemma {:induction false} EveryKindIsSeen(cs: seq<Clause>, c: Clause)
    requires c in cs
    ensures c.Kind() in FirstSeen(cs)
  {
    GroupIsFilter(cs, c.Kind());
    GroupsOfOthersAreEmpty(cs, c.Kind());
  }

  /** Running the grouped clauses is running them in option order: the same item,
      or an error in both cases. */
  lemma GroupingPreservesMeaning(cs: seq<Clause>, item: Item)
    requires ValidClauses(cs) && DistinctAttrs(cs)
    ensures ValidOps(Grouped(cs)) && AllValid(cs)
    ensures EvalOps(Grouped(cs), item) == EvalClauses(cs, item)
  {
    hide DistinctAttrs, FirstSeen, EvalOps;
    var actions := FirstSeen(cs);
    var ds := GroupedClausesBy(cs, actions);
    FirstSeenDistinct(cs);
    GroupedIsDistinct(cs, actions);
    GroupedMembers(cs, actions);
    forall c | c in cs
      ensures c in ds
    {
      EveryKindIsSeen(cs, c);
    }
    OrderDoesNotMatter(cs, ds, item);
    OpsAreValid(ds);
    GroupedOps(cs, actions);
  }

  /** The compiled request, parsed and applied by memdb, does what the options say. */
  lemma CompiledUpdateMeaning(cs: seq<Clause>, env: Env, item: Item)
    requires cs != [] && ValidClauses(cs) && DistinctAttrs(cs)
    requires HasNames(env, Attrs(cs)) && HasValues(env.values, Vals(cs), 0)
    ensures AllValid(cs) && ApplyUpdate(UpdateText(cs), env, item) == EvalClauses(cs, item)
  {
    GroupingPreservesMeaning(cs, item);
    UpdateTextIsNotEmpty(cs);
    CompileThenParse(cs, env);
    hide UpdateText, Grouped, EvalOps, EvalClauses;
  }

  lemma UpdateTextIsNotEmpty(cs: seq<Clause>)
    requires cs != []
    ensures UpdateText(cs) != ""
  {
    var actions := FirstSeen(cs);
    EveryKindIsSeen(cs, cs[0]);
    assert |SectionTexts(cs, actions)[0]| > 0;
  }
}
