/** What memdb makes of the expression that buildUpdateRequest prints. */
module UpdateCompile {
  import opened Base
  import opened Values
  import opened Lexer
  import opened Parser
  import opened Translate
  import opened RoundTrip
  import opened Condition
  import opened UpdateExpr
  import opened UpdateEval
  import opened UpdateRequest
  import opened Paths

  // ---- The clauses, grouped ----

  function OpsOf(ns: seq<Numbered>): seq<UpdateOp> {
    if ns == [] then [] else [ns[0].clause.Op()] + OpsOf(ns[1..])
  }

  /** The groups of the given actions, one after the other. */
  function GroupedBy(cs: seq<Clause>, actions: seq<Action>): seq<UpdateOp> {
    if actions == [] then [] else OpsOf(Group(cs, actions[0])) + GroupedBy(cs, actions[1..])
  }

  /** The clauses stably grouped by action, in first-seen order. */
  function Grouped(cs: seq<Clause>): seq<UpdateOp> { GroupedBy(cs, FirstSeen(cs)) }

  // ---- Tokens ----

  function PartToks(n: Numbered): seq<string> {
    match n.clause.Kind()
    case SET => [Alias(n.clause.attr), "=", Placeholder(n.index)]
    case REMOVE => [Alias(n.clause.attr)]
    case _ => [Alias(n.clause.attr), Placeholder(n.index)]
  }

  function GroupToks(ns: seq<Numbered>): seq<string> {
    if ns == [] then []
    else if |ns| == 1 then PartToks(ns[0])
    else PartToks(ns[0]) + ([","] + GroupToks(ns[1..]))
  }

  function UpdateToks(cs: seq<Clause>, actions: seq<Action>): seq<string> {
    if actions == [] then [] else [ActionName(actions[0])] + (GroupToks(Group(cs, actions[0])) + UpdateToks(cs, actions[1..]))
  }

  predicate PlainParts(ns: seq<Numbered>) { forall i :: 0 <= i < |ns| ==> AllIdentPart(ns[i].clause.attr) }

  lemma AliasIsToken(name: string)
    requires AllIdentPart(name)
    ensures MemTokens(Alias(name)) == [Alias(name)]
  {
    MemTokensPlaceholder('#', name);
    assert ['#'] + name == Alias(name);
  }

  lemma PartIsTokens(n: Numbered)
    requires AllIdentPart(n.clause.attr)
    ensures MemTokens(PartText(n)) == PartToks(n)
  {
    hide MemTokens, Placeholder;
    var alias, ph := Alias(n.clause.attr), Placeholder(n.index);
    AliasIsToken(n.clause.attr);
    MemTokensPlaceholderNumber(n.index);
    match n.clause.Kind()
    case SET =>
      var rest := ['='] + (" " + ph);
      assert alias + " = " + ph == alias + (" " + rest);
      MemTokensConcat(alias, " " + rest);
      MemTokensBlank(rest);
      MemTokensPunct('=', " " + ph);
      MemTokensBlank(ph);
    case REMOVE =>
    case _ =>
      assert alias + " " + ph == alias + (" " + ph);
      MemTokensConcat(alias, " " + ph);
      MemTokensBlank(ph);
  }

  lemma {:induction false} GroupIsTokens(ns: seq<Numbered>)
    requires PlainParts(ns)
    ensures MemTokens(Join(PartTexts(ns), ", ")) == GroupToks(ns)
  {
    hide MemTokens, PartText, PartToks;
    if ns == [] {
      NothingToScan();
    } else {
      PartIsTokens(ns[0]);
      if |ns| > 1 {
        GroupIsTokens(ns[1..]);
        var head, tail := PartText(ns[0]), Join(PartTexts(ns[1..]), ", ");
        assert PartTexts(ns)[1..] == PartTexts(ns[1..]);
        assert head + ", " + tail == head + ([','] + (" " + tail));
        MemTokensConcat(head, [','] + (" " + tail));
        MemTokensPunct(',', " " + tail);
        MemTokensBlank(tail);
      }
    }
  }

  lemma ActionIsToken(a: Action, rest: string)
    ensures MemTokens(ActionName(a) + (" " + rest)) == [ActionName(a)] + MemTokens(rest)
  {
    hide MemTokens;
    assert IsIdentifier(ActionName(a));
    MemTokensWord(ActionName(a), " " + rest);
    MemTokensBlank(rest);
  }

  lemma GroupsArePlain(cs: seq<Clause>, a: Action)
    requires ValidClauses(cs)
    ensures PlainParts(Group(cs, a))
  {
    GroupMembers(cs, a);
  }

  /** The members of a group: clauses of that action, with the value that is
      registered under their number. */
  lemma {:induction false} GroupMembers(cs: seq<Clause>, a: Action)
    ensures forall i :: 0 <= i < |Group(cs, a)| ==>
      var n := Group(cs, a)[i];
      n.clause in cs && n.clause.Kind() == a && (n.clause.ValueClause? ==> n.index < |Vals(cs)| && Vals(cs)[n.index] == n.clause.val)
  {
    if cs != [] {
      GroupMembers(cs[..|cs| - 1], a);
    }
  }

  lemma {:induction false} UpdateIsTokens(cs: seq<Clause>, actions: seq<Action>)
    requires ValidClauses(cs)
    ensures MemTokens(Join(SectionTexts(cs, actions), " ")) == UpdateToks(cs, actions)
    decreases |actions|
  {
    hide MemTokens, Group, PartTexts, GroupToks, ActionName;
    if actions == [] {
      NothingToScan();
    } else {
      var a, group := actions[0], Group(cs, actions[0]);
      var body := Join(PartTexts(group), ", ");
      GroupsArePlain(cs, a);
      GroupIsTokens(group);
      if |actions| == 1 {
        assert SectionText(cs, a) == ActionName(a) + (" " + body);
        ActionIsToken(a, body);
        assert GroupToks(group) + [] == GroupToks(group);
      } else {
        var tail := Join(SectionTexts(cs, actions[1..]), " ");
        UpdateIsTokens(cs, actions[1..]);
        assert SectionTexts(cs, actions)[1..] == SectionTexts(cs, actions[1..]);
        assert SectionText(cs, a) + " " + tail == ActionName(a) + (" " + (body + (" " + tail)));
        ActionIsToken(a, body + (" " + tail));
        MemTokensConcat(body, " " + tail);
        MemTokensBlank(tail);
      }
    }
  }

  // ---- Parsing them ----

  lemma UpdateMarks()
    ensures forall x :: MarkOf(Alias(x)) == Hash && ActionOf(Alias(x)) == None
    ensures forall i :: MarkOf(Placeholder(i)) == Mark.Value && ActionOf(Placeholder(i)) == None
    ensures MarkOf("=") == Equals && MarkOf(",") == Mark.Comma
  {
    forall tok: string | tok != "" && (tok[0] == '#' || tok[0] == ':')
      ensures ActionOf(tok) == None
    {
      assert ToUpper(tok)[0] == tok[0];
    }
  }

  lemma ActionMarks(a: Action)
    ensures ActionOf(ActionName(a)) == Some(a)
  {
    match a
    case SET => assert ToUpper("SET") == "SET";
    case ADD => assert ToUpper("ADD") == "ADD";
    case REMOVE => assert ToUpper("REMOVE") == "REMOVE";
    case DELETE => assert ToUpper("DELETE") == "DELETE";
  }

  /** env knows the aliases and values of these parts. */
  ghost predicate Knows(env: Env, ns: seq<Numbered>) {
    forall i :: 0 <= i < |ns| ==> KnowsPart(env, ns[i])
  }

  ghost predicate KnowsPart(env: Env, n: Numbered) {
    && Lookup(env.names, Alias(n.clause.attr)) == Some(n.clause.attr)
    && AllIdentPart(n.clause.attr)
    && (n.clause.ValueClause? ==> n.clause.action != REMOVE && Lookup(env.values, Placeholder(n.index)) == Some(n.clause.val))
  }

  /** The rest of the tokens after one clause: the end, the next action, or a comma. */
  predicate ClauseStop(rest: seq<string>) { ClausesEnd(rest) || NextMark(rest) == Mark.Comma }

  /** One clause of an action list is one step of that list's loop. */
  lemma OneClause(n: Numbered, read: seq<UpdateOp>, rest: seq<string>, env: Env)
    requires KnowsPart(env, n) && ClauseStop(rest)
    ensures Clauses(n.clause.Kind(), read, PartToks(n) + rest, env)
         == Clauses(n.clause.Kind(), read + [n.clause.Op()], SkipComma(rest), env)
  {
    hide SetClauses, RemoveClauses, AddDeleteClauses, SkipComma, ClauseStop, KnowsPart;
    match n.clause.Kind()
    case SET => OneSet(n, read, rest, env);
    case REMOVE => OneRemove(n, read, rest, env);
    case _ => OneAddOrDelete(n, read, rest, env);
  }

  lemma OneSet(n: Numbered, read: seq<UpdateOp>, rest: seq<string>, env: Env)
    requires KnowsPart(env, n) && ClauseStop(rest) && n.clause.Kind() == SET
    ensures SetClauses(read, PartToks(n) + rest, env) == SetClauses(read + [n.clause.Op()], SkipComma(rest), env)
  {
    UpdateMarks();
    AliasResolves(n.clause.attr, env);
    StopIsNoSign(rest);
    hide MarkOf, ActionOf, Alias, Placeholder, ResolvePath, NextMark, SkipComma, ClauseStop;
    var ts := PartToks(n) + rest;
    NextMarkIs(ts);
    assert ts[1..] == ["=", Placeholder(n.index)] + rest && ts[2..] == [Placeholder(n.index)] + rest;
    NextMarkIs(ts[1..]);
    ParseLiteral(n.index, n.clause.val, rest, env);
  }

  lemma OneRemove(n: Numbered, read: seq<UpdateOp>, rest: seq<string>, env: Env)
    requires KnowsPart(env, n) && ClauseStop(rest) && n.clause.Kind() == REMOVE
    ensures RemoveClauses(read, PartToks(n) + rest, env) == RemoveClauses(read + [n.clause.Op()], SkipComma(rest), env)
  {
    UpdateMarks();
    AliasResolves(n.clause.attr, env);
    hide MarkOf, ActionOf, Alias, Placeholder, ResolvePath, NextMark, SkipComma, ClauseStop;
    var ts := PartToks(n) + rest;
    NextMarkIs(ts);
    assert ts[1..] == rest;
  }

  lemma OneAddOrDelete(n: Numbered, read: seq<UpdateOp>, rest: seq<string>, env: Env)
    requires KnowsPart(env, n) && ClauseStop(rest) && (n.clause.Kind() == ADD || n.clause.Kind() == DELETE)
    ensures AddDeleteClauses(n.clause.Kind(), read, PartToks(n) + rest, env)
         == AddDeleteClauses(n.clause.Kind(), read + [n.clause.Op()], SkipComma(rest), env)
  {
    UpdateMarks();
    AliasResolves(n.clause.attr, env);
    hide MarkOf, ActionOf, Alias, Placeholder, ResolvePath, NextMark, SkipComma, ClauseStop;
    var ts := PartToks(n) + rest;
    NextMarkIs(ts);
    assert ts[1..] == [Placeholder(n.index)] + rest && ts[2..] == rest;
    NextMarkIs(ts[1..]);
    LiteralResolves(n.index, n.clause.val, env);
  }

  lemma NextMarkIs(ts: seq<string>)
    requires ts != []
    ensures NextMark(ts) == MarkOf(ts[0])
  {
  }

  lemma AliasResolves(attr: string, env: Env)
    requires AllIdentPart(attr) && Lookup(env.names, Alias(attr)) == Some(attr)
    ensures ResolvePath(Alias(attr), env) == [attr]
  {
    assert '.' !in attr;
  }

  lemma LiteralResolves(i: nat, val: AttributeValue, env: Env)
    requires Lookup(env.values, Placeholder(i)) == Some(val)
    ensures ResolveVal(Placeholder(i), env) == Some(Literal(val))
  {
  }

  lemma StopIsNoSign(rest: seq<string>)
    requires ClauseStop(rest)
    ensures !NextMark(rest).Sign?
  {
    if ClausesEnd(rest) && NextMark(rest) != Nothing {
      var tok := Peek(rest);
      assert ToUpper(tok)[0] == UpperChar(tok[0]);
    }
  }

  lemma ParseLiteral(i: nat, val: AttributeValue, rest: seq<string>, env: Env)
    requires Lookup(env.values, Placeholder(i)) == Some(val) && !NextMark(rest).Sign?
    ensures ParseSetValue([Placeholder(i)] + rest, env) == Done(Literal(val), rest)
  {
    UpdateMarks();
    LiteralResolves(i, val, env);
    hide MarkOf, Placeholder, ResolveVal, Alias;
    var ts := [Placeholder(i)] + rest;
    assert ts[1..] == rest && Peek(ts) == Placeholder(i);
    assert ParseSetAtom(ts, env) == Done(Literal(val), rest);
  }

  /** A whole action list. */
  lemma {:induction false} ParseGroup(a: Action, ns: seq<Numbered>, read: seq<UpdateOp>, rest: seq<string>, env: Env)
    requires ns != [] && Knows(env, ns) && ClausesEnd(rest)
    requires forall i :: 0 <= i < |ns| ==> ns[i].clause.Kind() == a
    ensures Clauses(a, read, GroupToks(ns) + rest, env) == Done(read + OpsOf(ns), rest)
    decreases |ns|
  {
    hide Clauses, PartToks, ClausesEnd, SkipComma, KnowsPart, ClauseStop;
    var n, op := ns[0], ns[0].clause.Op();
    assert KnowsPart(env, n);
    if |ns| == 1 {
      EndOfClauses(a, read + [op], rest, env);
      OneClause(n, read, rest, env);
      assert OpsOf(ns) == [op];
    } else {
      var more := GroupToks(ns[1..]) + rest;
      CommaStops(more);
      OneClause(n, read, [","] + more, env);
      Assoc(PartToks(n), [","] + GroupToks(ns[1..]), rest);
      Assoc([","], GroupToks(ns[1..]), rest);
      ParseGroup(a, ns[1..], read + [op], rest, env);
      Assoc(read, [op], OpsOf(ns[1..]));
    }
  }

  lemma CommaStops(more: seq<string>)
    ensures ClauseStop([","] + more) && SkipComma([","] + more) == more
  {
    assert ([","] + more)[1..] == more;
    assert MarkOf(",") == Mark.Comma;
  }

  lemma EndOfClauses(a: Action, ops: seq<UpdateOp>, rest: seq<string>, env: Env)
    requires ClausesEnd(rest)
    ensures ClauseStop(rest) && SkipComma(rest) == rest && Clauses(a, ops, rest, env) == Done(ops, rest)
  {
  }

  lemma {:induction false} ParseSections(cs: seq<Clause>, actions: seq<Action>, read: seq<UpdateOp>, env: Env)
    requires forall a :: a in actions ==> Group(cs, a) != [] && Knows(env, Group(cs, a))
    ensures Sections(read, UpdateToks(cs, actions), env) == Done(read + GroupedBy(cs, actions), [])
    decreases |actions|
  {
    hide Group, Knows, Clauses, GroupToks, ActionName, OpsOf, ActionOf;
    if actions == [] {
      assert read + [] == read;
    } else {
      var a, group := actions[0], Group(cs, actions[0]);
      var rest := UpdateToks(cs, actions[1..]);
      GroupMembers(cs, a);
      SectionStarts(cs, actions);
      SectionStarts(cs, actions[1..]);
      ParseGroup(a, group, read, rest, env);
      var ts := UpdateToks(cs, actions);
      assert ts[0] == ActionName(a) && ts[1..] == GroupToks(group) + rest;
      ParseSections(cs, actions[1..], read + OpsOf(group), env);
      Assoc(read, OpsOf(group), GroupedBy(cs, actions[1..]));
    }
  }

  lemma SectionStarts(cs: seq<Clause>, actions: seq<Action>)
    ensures ClausesEnd(UpdateToks(cs, actions))
    ensures actions != [] ==> ActionOf(ActionName(actions[0])) == Some(actions[0])
  {
    assert ClausesEnd([]);
    hide MarkOf, ActionOf, ActionName;
    if actions != [] {
      ActionMarks(actions[0]);
      assert Peek(UpdateToks(cs, actions)) == ActionName(actions[0]);
    }
  }

  /** Compiling then parsing gives the clauses grouped by action in first-seen
      order, each with its own value, in every environment that knows the aliases
      and the numbered values. */
  lemma CompileThenParse(cs: seq<Clause>, env: Env)
    requires ValidClauses(cs)
    requires HasNames(env, Attrs(cs)) && HasValues(env.values, Vals(cs), 0)
    ensures ParseUpdate(UpdateText(cs), env) == Done(Grouped(cs), [])
  {
    var actions := FirstSeen(cs);
    forall a | a in actions
      ensures Group(cs, a) != [] && Knows(env, Group(cs, a))
    {
      GroupsOfOthersAreEmpty(cs, a);
      GroupIsKnown(cs, a, env);
    }
    UpdateIsTokens(cs, actions);
    hide MemTokens, SectionTexts, UpdateToks, GroupedBy, Sections, FirstSeen, HasValues, Vals;
    ParseSections(cs, actions, [], env);
    assert [] + GroupedBy(cs, actions) == GroupedBy(cs, actions);
  }

  lemma GroupIsKnown(cs: seq<Clause>, a: Action, env: Env)
    requires ValidClauses(cs)
    requires HasNames(env, Attrs(cs)) && HasValues(env.values, Vals(cs), 0)
    ensures Knows(env, Group(cs, a))
  {
    GroupMembers(cs, a);
    hide Vals, Group, Placeholder, Alias;
    forall i | 0 <= i < |Group(cs, a)|
      ensures KnowsPart(env, Group(cs, a)[i])
    {
      var n := Group(cs, a)[i];
      assert n.clause in cs;
      assert n.clause.attr in Attrs(cs);
      if n.clause.ValueClause? {
        assert Lookup(env.values, Placeholder(0 + n.index)) == Some(Vals(cs)[n.index]);
      }
    }
  }
}
