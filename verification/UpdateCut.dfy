/** Exactly when memdb's update parser reads past its tokens: the tokens are those of a
    parseable expression, cut off behind the bracket of an if_not_exists inside a SET
    clause. */
module UpdateCut {
  import opened Base
  import opened Values
  import opened Lexer
  import opened Parser
  import opened UpdateExpr
  import opened UpdatePanic

  // ---- Tokens that end in a call ----

  lemma EndsBehind(ts: seq<string>, env: Env)
    requires EndsInCall(ts, env) && |ts| > 2
    ensures EndsInCall(ts[1..], env)
  {
    assert ts[1..][|ts| - 2] == ts[|ts| - 1] && ts[1..][|ts| - 3] == ts[|ts| - 2];
  }

  /** The first token is not the name: there are more than two. */
  lemma EndsBehindOther(ts: seq<string>, env: Env)
    requires EndsInCall(ts, env) && NextMark(ts) != Ident && NextMark(ts) != Hash
    ensures |ts| > 2 && EndsInCall(ts[1..], env)
  {
    EndsBehind(ts, env);
  }

  lemma EndsBehindComma(ts: seq<string>, env: Env)
    requires EndsInCall(ts, env)
    ensures EndsInCall(SkipComma(ts), env)
  {
    if NextMark(ts) == Mark.Comma {
      EndsBehindOther(ts, env);
    }
  }

  lemma FrontStays(ts: seq<string>, more: seq<string>, n: nat)
    requires n <= |ts|
    ensures (ts + more)[n..] == ts[n..] + more
    ensures n < |ts| ==> (ts + more)[n] == ts[n] && NextMark((ts + more)[n..]) == NextMark(ts[n..]) && Peek((ts + more)[n..]) == Peek(ts[n..])
    ensures ts != [] ==> NextMark(ts + more) == NextMark(ts) && Peek(ts + more) == Peek(ts) && (ts + more)[0] == ts[0]
  {
    hide MarkOf;
  }

  /** A name of if_not_exists starts no section and ends no clauses. */
  lemma NameIsNoAction(tok: string, env: Env)
    requires NamesIfNotExists(tok, env)
    ensures ActionOf(tok) == None && MarkOf(tok) != Nothing
  {
    if MarkOf(tok) == Ident {
      assert |ToLower(tok)| == 13;
    } else {
      assert ToUpper(tok)[0] == '#';
    }
  }

  // ---- Behind the cut nothing changes what came before ----

  /** More tokens change nothing about a phrase that is over before the call at the end,
      or that fails before it. */
  ghost predicate Agree<T>(part: Outcome<T>, whole: Outcome<T>, more: seq<string>, env: Env) {
    match part
    case Panic => true
    case Bad => whole == Bad
    case Done(v, rest) => whole == Done(v, rest + more) && EndsInCall(rest, env)
  }

  lemma {:induction false} ValueAgrees(ts: seq<string>, more: seq<string>, env: Env)
    requires EndsInCall(ts, env)
    ensures Agree(ParseSetValue(ts, env), ParseSetValue(ts + more, env), more, env)
    decreases |ts|, 2
  {
    hide ParseSetAtom, EndsInCall, NextMark;
    AtomAgrees(ts, more, env);
    var first := ParseSetAtom(ts, env);
    if first.Done? {
      var rest := first.rest;
      EndsNonEmpty(rest, env);
      FrontStays(rest, more, 1);
      if NextMark(rest).Sign? {
        EndsBehindOther(rest, env);
        AtomAgrees(rest[1..], more, env);
      }
    }
  }

  lemma EndsNonEmpty(ts: seq<string>, env: Env)
    requires EndsInCall(ts, env)
    ensures |ts| > 1
  {
  }

  lemma {:induction false} AtomAgrees(ts: seq<string>, more: seq<string>, env: Env)
    requires EndsInCall(ts, env)
    ensures Agree(ParseSetAtom(ts, env), ParseSetAtom(ts + more, env), more, env)
    decreases |ts|, 1
  {
    EndsNonEmpty(ts, env);
    FrontStays(ts, more, 1);
    if |ts| == 2 {
      CallPanics(ts, env);
    } else {
      EndsBehind(ts, env);
      if NextMark(ts[1..]) == Open {
        FunctionAgrees(if NextMark(ts) == Hash && ts[0] in env.names then env.names[ts[0]] else ts[0], ts[1..], more, env);
      }
      hide EndsInCall, ParseSetFunction, MarkOf;
    }
  }

  /** The call with nothing behind its bracket. */
  lemma CallPanics(ts: seq<string>, env: Env)
    requires EndsInCall(ts, env) && |ts| == 2
    ensures ParseSetAtom(ts, env) == Panic
  {
    var name := if NextMark(ts) == Hash && ts[0] in env.names then env.names[ts[0]] else ts[0];
    assert ts[1..][0] == ts[1] && ts[1..][1..] == [];
    assert IfNotExistsArgs([], env) == Panic;
    assert ParseSetFunction(name, ts[1..], env) == Panic;
  }

  lemma {:induction false} FunctionAgrees(name: string, ts: seq<string>, more: seq<string>, env: Env)
    requires EndsInCall(ts, env) && NextMark(ts) == Open
    ensures Agree(ParseSetFunction(name, ts, env), ParseSetFunction(name, ts + more, env), more, env)
    decreases |ts|, 0
  {
    hide EndsInCall, MarkOf;
    EndsBehindOther(ts, env);
    FrontStays(ts, more, 1);
    IfNotExistsAgrees(ts[1..], more, env);
    ListAppendAgrees(ts[1..], more, env);
  }

  lemma {:induction false} IfNotExistsAgrees(ts: seq<string>, more: seq<string>, env: Env)
    requires EndsInCall(ts, env)
    ensures Agree(IfNotExistsArgs(ts, env), IfNotExistsArgs(ts + more, env), more, env)
    decreases |ts|, 3
  {
    hide ParseSetValue, EndsInCall, NextMark;
    EndsNonEmpty(ts, env);
    FrontStays(ts, more, 1);
    FrontStays(ts, more, 2);
    if NextMark(ts[1..]) == Mark.Comma {
      CommaSecond(ts, env);
      ValueAgrees(ts[2..], more, env);
      var val := ParseSetValue(ts[2..], env);
      if val.Done? {
        ShutAgrees(val.rest, more, env);
      }
    }
  }

  lemma CommaSecond(ts: seq<string>, env: Env)
    requires EndsInCall(ts, env) && NextMark(ts[1..]) in {Mark.Comma, Equals}
    ensures |ts| > 3 && EndsInCall(ts[2..], env)
  {
    assert |ts| > 2;
    EndsBehind(ts, env);
    EndsBehindOther(ts[1..], env);
    assert ts[1..][1..] == ts[2..];
  }

  lemma ShutAgrees(rest: seq<string>, more: seq<string>, env: Env)
    requires EndsInCall(rest, env)
    ensures NextMark(rest + more) == NextMark(rest) && rest != []
    ensures NextMark(rest) == Shut || NextMark(rest) == Mark.Comma ==> (rest + more)[1..] == rest[1..] + more && EndsInCall(rest[1..], env)
  {
    FrontStays(rest, more, 1);
    if NextMark(rest) == Shut || NextMark(rest) == Mark.Comma {
      EndsBehindOther(rest, env);
    }
  }

  lemma {:induction false} ListAppendAgrees(ts: seq<string>, more: seq<string>, env: Env)
    requires EndsInCall(ts, env)
    ensures Agree(ListAppendArgs(ts, env), ListAppendArgs(ts + more, env), more, env)
    decreases |ts|, 3
  {
    hide ParseSetValue, EndsInCall, NextMark;
    ValueAgrees(ts, more, env);
    var first := ParseSetValue(ts, env);
    if first.Done? {
      ShutAgrees(first.rest, more, env);
      if NextMark(first.rest) == Mark.Comma {
        ValueAgrees(first.rest[1..], more, env);
        var second := ParseSetValue(first.rest[1..], env);
        if second.Done? {
          ShutAgrees(second.rest, more, env);
        }
      }
    }
  }

  lemma EndAgrees(ts: seq<string>, more: seq<string>, env: Env)
    requires EndsInCall(ts, env)
    ensures ClausesEnd(ts + more) == ClausesEnd(ts)
  {
    FrontStays(ts, more, 0);
  }

  lemma CommaAgrees(ts: seq<string>, more: seq<string>)
    requires ts != []
    ensures SkipComma(ts + more) == SkipComma(ts) + more
  {
    FrontStays(ts, more, 1);
  }

  lemma {:induction false} SetClausesAgree(ops: seq<UpdateOp>, ts: seq<string>, more: seq<string>, env: Env)
    requires EndsInCall(ts, env)
    ensures Agree(SetClauses(ops, ts, env), SetClauses(ops, ts + more, env), more, env)
    decreases |ts|
  {
    hide ParseSetValue, EndsInCall, NextMark, ResolvePath, SkipComma, ClausesEnd;
    EndsNonEmpty(ts, env);
    EndAgrees(ts, more, env);
    FrontStays(ts, more, 1);
    FrontStays(ts, more, 2);
    if !ClausesEnd(ts) && NextMark(ts[1..]) == Equals {
      CommaSecond(ts, env);
      ValueAgrees(ts[2..], more, env);
      var val := ParseSetValue(ts[2..], env);
      if val.Done? {
        EndsNonEmpty(val.rest, env);
        CommaAgrees(val.rest, more);
        EndsBehindComma(val.rest, env);
        SkipCommaShrinks(val.rest);
        SetClausesAgree(ops + [ValueOp(SET, ResolvePath(ts[0], env), val.value)], SkipComma(val.rest), more, env);
      }
    }
  }

  // ---- Other sections ----

  predicate NoActions(ts: seq<string>) { forall i :: 0 <= i < |ts| ==> ActionOf(ts[i]).None? }

  /** The last clause read is not a SET clause. */
  predicate LastIsOther(ops: seq<UpdateOp>) {
    ops != [] && (ops[|ops| - 1].RemoveOp? || ops[|ops| - 1].action != SET)
  }

  predicate LastIsSet(ops: seq<UpdateOp>) {
    ops != [] && ops[|ops| - 1].ValueOp? && ops[|ops| - 1].action == SET
  }

  /** A section that goes on to the end of tokens without a further action. */
  predicate RunsOut(r: Outcome<seq<UpdateOp>>) {
    r.Done? ==> LastIsOther(r.value) && NextMark(r.rest) == Nothing
  }

  lemma NoActionsBehind(ts: seq<string>, n: nat)
    requires NoActions(ts) && n <= |ts|
    ensures NoActions(ts[n..]) && NoActions(SkipComma(ts[n..]))
  {
    hide ActionOf;
    assert forall i :: 0 <= i < |ts[n..]| ==> ts[n..][i] == ts[n + i];
    if NextMark(ts[n..]) == Mark.Comma {
      assert forall i :: 0 <= i < |ts[n..][1..]| ==> ts[n..][1..][i] == ts[n + 1 + i];
    }
  }

  lemma EndWithoutActions(ts: seq<string>)
    requires NoActions(ts)
    ensures ClausesEnd(ts) <==> NextMark(ts) == Nothing
  {
    hide ActionOf;
  }

  lemma {:induction false} RemoveRunsOut(ops: seq<UpdateOp>, ts: seq<string>, env: Env)
    requires NoActions(ts) && LastIsOther(ops)
    ensures RunsOut(RemoveClauses(ops, ts, env))
    decreases |ts|
  {
    hide NoActions, ActionOf, NextMark, ResolvePath, SkipComma, ClausesEnd;
    EndWithoutActions(ts);
    if !ClausesEnd(ts) {
      NonEmptyUnlessEnd(ts);
      NoActionsBehind(ts, 1);
      SkipCommaShrinks(ts[1..]);
      RemoveRunsOut(ops + [RemoveOp(ResolvePath(ts[0], env))], SkipComma(ts[1..]), env);
    }
  }

  lemma {:induction false} AddDeleteRunsOut(action: Action, ops: seq<UpdateOp>, ts: seq<string>, env: Env)
    requires NoActions(ts) && LastIsOther(ops) && action != SET
    ensures RunsOut(AddDeleteClauses(action, ops, ts, env))
    decreases |ts|
  {
    hide NoActions, ActionOf, NextMark, ResolvePath, ResolveVal, SkipComma, ClausesEnd;
    EndWithoutActions(ts);
    NonEmptyUnlessEnd(ts);
    if !ClausesEnd(ts) {
      NonEmptyUnlessEnd(ts[1..]);
      if !ClausesEnd(ts[1..]) && ResolveVal(ts[1], env).Some? {
        NoActionsBehind(ts, 2);
        SkipCommaShrinks(ts[2..]);
        AddDeleteRunsOut(action, ops + [ValueOp(action, ResolvePath(ts[0], env), ResolveVal(ts[1], env).value)], SkipComma(ts[2..]), env);
      }
    }
  }

  /** A section of another kind over tokens that end in a call: it is over before the
      call, or it runs through it. */
  ghost predicate Passes(part: Outcome<seq<UpdateOp>>, whole: Outcome<seq<UpdateOp>>, more: seq<string>, env: Env) {
    part != Panic && (Agree(part, whole, more, env) || ((part.Done? ==> |part.rest| < 2) && (NoActions(more) ==> RunsOut(whole))))
  }

  lemma {:induction false} RemovePasses(ops: seq<UpdateOp>, ts: seq<string>, more: seq<string>, env: Env)
    requires EndsInCall(ts, env)
    ensures Passes(RemoveClauses(ops, ts, env), RemoveClauses(ops, ts + more, env), more, env)
    decreases |ts|
  {
    hide NoActions, EndsInCall, NextMark, ResolvePath, SkipComma, ClausesEnd, ActionOf;
    EndsNonEmpty(ts, env);
    EndAgrees(ts, more, env);
    FrontStays(ts, more, 1);
    RemoveNeverPanics(ops, ts, env);
    if !ClausesEnd(ts) {
      var next := ops + [RemoveOp(ResolvePath(ts[0], env))];
      CommaAgrees(ts[1..], more);
      SkipCommaShrinks(ts[1..]);
      if |ts| > 2 {
        EndsBehind(ts, env);
        EndsBehindComma(ts[1..], env);
        RemovePasses(next, SkipComma(ts[1..]), more, env);
      } else if NoActions(more) {
        BracketNoActions(ts, more, env);
        RemoveRunsOut(next, SkipComma(ts[1..] + more), env);
      }
    }
  }

  lemma BracketNoActions(ts: seq<string>, more: seq<string>, env: Env)
    requires EndsInCall(ts, env) && NoActions(more)
    ensures NoActions(ts[|ts| - 1..] + more) && NoActions(SkipComma(ts[|ts| - 1..] + more))
    ensures NoActions(SkipComma(more)) && ActionOf(ts[|ts| - 1]).None? && ActionOf(ts[|ts| - 2]).None?
  {
    var open := ts[|ts| - 1];
    NameIsNoAction(ts[|ts| - 2], env);
    assert |open| == 1;
    assert |ToUpper(open)| == 1;
    assert ActionOf(open).None?;
    hide ActionOf;
    var w := ts[|ts| - 1..] + more;
    assert forall i :: 0 < i < |w| ==> w[i] == more[i - 1];
    assert w[0..] == w && more[0..] == more;
    NoActionsBehind(w, 0);
    NoActionsBehind(more, 0);
  }

  lemma {:induction false} RemoveNeverPanics(ops: seq<UpdateOp>, ts: seq<string>, env: Env)
    ensures RemoveClauses(ops, ts, env).Done?
    decreases |ts|
  {
    hide NextMark, ResolvePath, SkipComma, ClausesEnd;
    NonEmptyUnlessEnd(ts);
    if !ClausesEnd(ts) {
      SkipCommaShrinks(ts[1..]);
      RemoveNeverPanics(ops + [RemoveOp(ResolvePath(ts[0], env))], SkipComma(ts[1..]), env);
    }
  }

  lemma {:induction false} AddDeleteNeverPanics(action: Action, ops: seq<UpdateOp>, ts: seq<string>, env: Env)
    ensures AddDeleteClauses(action, ops, ts, env) != Panic
    decreases |ts|
  {
    hide NextMark, ResolvePath, ResolveVal, SkipComma, ClausesEnd;
    NonEmptyUnlessEnd(ts);
    if !ClausesEnd(ts) {
      NonEmptyUnlessEnd(ts[1..]);
      if !ClausesEnd(ts[1..]) && ResolveVal(ts[1], env).Some? {
        SkipCommaShrinks(ts[2..]);
        AddDeleteNeverPanics(action, ops + [ValueOp(action, ResolvePath(ts[0], env), ResolveVal(ts[1], env).value)], SkipComma(ts[2..]), env);
      }
    }
  }

  lemma {:induction false} AddDeletePasses(action: Action, ops: seq<UpdateOp>, ts: seq<string>, more: seq<string>, env: Env)
    requires EndsInCall(ts, env) && action != SET
    ensures Passes(AddDeleteClauses(action, ops, ts, env), AddDeleteClauses(action, ops, ts + more, env), more, env)
    decreases |ts|
  {
    hide NoActions, EndsInCall, NextMark, ResolvePath, ResolveVal, SkipComma, ClausesEnd, ActionOf;
    EndsNonEmpty(ts, env);
    EndAgrees(ts, more, env);
    FrontStays(ts, more, 1);
    FrontStays(ts, more, 2);
    AddDeleteNeverPanics(action, ops, ts, env);
    if !ClausesEnd(ts) {
      SecondEndAgrees(ts, more, env);
      if !ClausesEnd(ts[1..]) && ResolveVal(ts[1], env).Some? {
        var next := ops + [ValueOp(action, ResolvePath(ts[0], env), ResolveVal(ts[1], env).value)];
        SkipCommaShrinks(ts[2..]);
        if |ts| > 3 {
          EndsBehind(ts, env);
          EndsBehind(ts[1..], env);
          assert ts[1..][1..] == ts[2..];
          CommaAgrees(ts[2..], more);
          EndsBehindComma(ts[2..], env);
          AddDeletePasses(action, next, SkipComma(ts[2..]), more, env);
        } else if NoActions(more) {
          BracketNoActions(ts, more, env);
          assert |ts| == 2 ==> ts[2..] + more == more;
          AddDeleteRunsOut(action, next, SkipComma(ts[2..] + more), env);
        }
      }
    }
  }

  lemma SecondEndAgrees(ts: seq<string>, more: seq<string>, env: Env)
    requires EndsInCall(ts, env)
    ensures ClausesEnd((ts + more)[1..]) == ClausesEnd(ts[1..])
  {
    FrontStays(ts, more, 1);
  }

  // ---- A completed expression was cut inside a SET clause ----

  lemma NothingLeft(ops: seq<UpdateOp>, ts: seq<string>, env: Env)
    requires NextMark(ts) == Nothing && LastIsOther(ops)
    ensures Sections(ops, ts, env).Done? ==> LastIsOther(Sections(ops, ts, env).value)
  {
    if ts != [] {
      assert ts[0] == "" && |ToUpper(ts[0])| == 0;
    }
  }

  lemma {:induction false} CutPanics(ops: seq<UpdateOp>, ts: seq<string>, more: seq<string>, env: Env)
    requires EndsInCall(ts, env) && NoActions(more)
    requires Sections(ops, ts + more, env).Done? && LastIsSet(Sections(ops, ts + more, env).value)
    ensures Sections(ops, ts, env) == Panic
    decreases |ts|
  {
    hide EndsInCall, NoActions, SetClauses, AddDeleteClauses, RemoveClauses, ActionOf, NextMark;
    EndsNonEmpty(ts, env);
    FrontStays(ts, more, 1);
    var action := ActionOf(ts[0]).value;
    ActionIsNotLast(ts, env);
    SetClausesAgree(ops, ts[1..], more, env);
    RemovePasses(ops, ts[1..], more, env);
    if action != SET {
      AddDeletePasses(action, ops, ts[1..], more, env);
    }
    var part, whole := Clauses(action, ops, ts[1..], env), Clauses(action, ops, ts[1..] + more, env);
    if part != Panic {
      if RunsOut(whole) {
        NothingLeft(whole.value, whole.rest, env);
      } else {
        CutPanics(part.value, part.rest, more, env);
      }
    }
  }

  lemma ActionIsNotLast(ts: seq<string>, env: Env)
    requires EndsInCall(ts, env) && ActionOf(ts[0]).Some?
    ensures |ts| > 2 && EndsInCall(ts[1..], env)
  {
    if |ts| == 2 {
      NameIsNoAction(ts[0], env);
    }
    EndsBehind(ts, env);
  }

  // ---- Any input that panics can be completed ----

  /** Built from the tokens that complete a call: a path, a comma, a bracket. */
  predicate Closers(more: seq<string>) { forall i :: 0 <= i < |more| ==> more[i] in {"p", ",", ")"} }

  /** A phrase that is over where `tail` starts. */
  predicate Over<T>(r: Outcome<T>, tail: seq<string>) { r.Done? && r.rest == tail }

  /** `more` completes the value that starts at ts, whatever follows it but a sign. */
  ghost predicate ClosesValue(ts: seq<string>, more: seq<string>, env: Env) {
    forall tail :: !NextMark(tail).Sign? ==> Over(ParseSetValue(ts + (more + tail), env), tail)
  }

  ghost predicate ClosesAtom(ts: seq<string>, more: seq<string>, env: Env) {
    forall tail :: Over(ParseSetAtom(ts + (more + tail), env), tail)
  }

  ghost predicate ClosesIfNotExists(ts: seq<string>, more: seq<string>, env: Env) {
    forall tail :: Over(IfNotExistsArgs(ts + (more + tail), env), tail)
  }

  ghost predicate ClosesListAppend(ts: seq<string>, more: seq<string>, env: Env) {
    forall tail :: Over(ListAppendArgs(ts + (more + tail), env), tail)
  }

  lemma CloserMarks()
    ensures MarkOf("p") == Ident && MarkOf(",") == Mark.Comma && MarkOf(")") == Shut
  {
  }

  /** "p" stands for a path wherever a value is expected, in front of a comma or a bracket. */
  lemma PathIsValue(tail: seq<string>, env: Env)
    requires NextMark(tail) in {Mark.Comma, Shut}
    ensures Over(ParseSetValue(["p"] + tail, env), tail)
  {
    CloserMarks();
    assert (["p"] + tail)[1..] == tail;
    assert ParseSetAtom(["p"] + tail, env) == Done(PathValue(SplitDots("p")), tail);
  }

  lemma ClosersConcat(a: seq<string>, b: seq<string>)
    requires Closers(a) && Closers(b)
    ensures Closers(a + b)
  {
  }

  const PATH_AND_VALUE := ["p", ",", "p", ")"]
  const SECOND_VALUE := [",", "p", ")"]
  const BRACKET := [")"]

  lemma {:induction false} CloseIfNotExists(ts: seq<string>, env: Env) returns (more: seq<string>)
    requires IfNotExistsArgs(ts, env) == Panic
    ensures ClosesIfNotExists(ts, more, env) && Closers(more) && |more| <= 2 * |ts| + 4
    decreases |ts|, 3
  {
    hide ParseSetValue, NextMark, ClosesValue;
    if ts == [] {
      more := PATH_AND_VALUE;
      forall tail
        ensures Over(IfNotExistsArgs(ts + (more + tail), env), tail)
      {
        FreshArgs(tail, env);
        assert ts + (more + tail) == PATH_AND_VALUE + tail;
      }
    } else {
      var inner := CloseValue(ts[2..], env);
      more := inner + BRACKET;
      ClosersConcat(inner, BRACKET);
      forall tail
        ensures Over(IfNotExistsArgs(ts + (more + tail), env), tail)
      {
        CloseDefault(ts, inner, tail, env);
      }
    }
  }

  lemma FreshArgs(tail: seq<string>, env: Env)
    ensures Over(IfNotExistsArgs(PATH_AND_VALUE + tail, env), tail)
  {
    CloserMarks();
    var w := PATH_AND_VALUE + tail;
    assert w[1..][0] == "," && w[2..] == ["p"] + ([")"] + tail);
    PathIsValue([")"] + tail, env);
    assert ([")"] + tail)[1..] == tail;
    hide ParseSetValue;
  }

  lemma CloseDefault(ts: seq<string>, inner: seq<string>, tail: seq<string>, env: Env)
    requires |ts| >= 2 && NextMark(ts[1..]) == Mark.Comma && ClosesValue(ts[2..], inner, env)
    ensures Over(IfNotExistsArgs(ts + ((inner + BRACKET) + tail), env), tail)
  {
    CloserMarks();
    hide ParseSetValue, MarkOf;
    var end := BRACKET + tail;
    Assoc(inner, BRACKET, tail);
    var w := ts + (inner + end);
    FrontStays(ts, inner + end, 1);
    FrontStays(ts, inner + end, 2);
    assert end[1..] == tail && NextMark(end) == Shut;
    assert Over(ParseSetValue(ts[2..] + (inner + end), env), end);
  }

  lemma {:induction false} CloseListAppend(ts: seq<string>, env: Env) returns (more: seq<string>)
    requires ListAppendArgs(ts, env) == Panic
    ensures ClosesListAppend(ts, more, env) && Closers(more) && |more| <= 2 * |ts| + 3
    decreases |ts|, 3
  {
    hide ParseSetValue, NextMark, ClosesValue;
    var first := ParseSetValue(ts, env);
    if first == Panic {
      var inner := CloseValue(ts, env);
      more := inner + SECOND_VALUE;
      ClosersConcat(inner, SECOND_VALUE);
      forall tail
        ensures Over(ListAppendArgs(ts + (more + tail), env), tail)
      {
        CloseFirst(ts, inner, tail, env);
      }
    } else {
      var inner := CloseValue(first.rest[1..], env);
      more := inner + BRACKET;
      ClosersConcat(inner, BRACKET);
      ListAppendIsTame(ts, env);
      forall tail
        ensures Over(ListAppendArgs(ts + (more + tail), env), tail)
      {
        CloseSecond(ts, inner, tail, env);
      }
    }
  }

  lemma CloseFirst(ts: seq<string>, inner: seq<string>, tail: seq<string>, env: Env)
    requires ClosesValue(ts, inner, env)
    ensures Over(ListAppendArgs(ts + ((inner + SECOND_VALUE) + tail), env), tail)
  {
    CloserMarks();
    var end, close := SECOND_VALUE + tail, [")"] + tail;
    assert end[0] == "," && end[1..] == ["p"] + close && close[1..] == tail;
    assert NextMark(end) == Mark.Comma && NextMark(close) == Shut;
    PathIsValue(close, env);
    hide ParseSetValue, MarkOf;
    Assoc(inner, SECOND_VALUE, tail);
    assert Over(ParseSetValue(ts + (inner + end), env), end);
  }

  lemma CloseSecond(ts: seq<string>, inner: seq<string>, tail: seq<string>, env: Env)
    requires EndsInCall(ts, env) && ParseSetValue(ts, env).Done?
    requires var rest := ParseSetValue(ts, env).rest; NextMark(rest) == Mark.Comma && ClosesValue(rest[1..], inner, env)
    ensures Over(ListAppendArgs(ts + ((inner + BRACKET) + tail), env), tail)
  {
    CloserMarks();
    hide ParseSetValue, MarkOf, EndsInCall;
    var end := BRACKET + tail;
    Assoc(inner, BRACKET, tail);
    assert end[1..] == tail && NextMark(end) == Shut;
    var rest := ParseSetValue(ts, env).rest;
    ValueAgrees(ts, inner + end, env);
    ShutAgrees(rest, inner + end, env);
    assert Over(ParseSetValue(rest[1..] + (inner + end), env), end);
  }

  lemma {:induction false} CloseAtom(ts: seq<string>, env: Env) returns (more: seq<string>)
    requires ParseSetAtom(ts, env) == Panic
    ensures ClosesAtom(ts, more, env) && Closers(more) && |more| <= 2 * |ts|
    decreases |ts|, 1
  {
    var name := if NextMark(ts) == Hash && ts[0] in env.names then env.names[ts[0]] else ts[0];
    assert ts[1..][1..] == ts[2..];
    if ToLower(name) == "if_not_exists" {
      more := CloseIfNotExists(ts[2..], env);
    } else {
      more := CloseListAppend(ts[2..], env);
    }
    forall tail
      ensures Over(ParseSetAtom(ts + (more + tail), env), tail)
    {
      CallOver(ts, more, tail, env);
    }
  }

  lemma CallOver(ts: seq<string>, more: seq<string>, tail: seq<string>, env: Env)
    requires |ts| >= 2 && (NextMark(ts) == Ident || NextMark(ts) == Hash) && NextMark(ts[1..]) == Open
    requires var name := ToLower(if NextMark(ts) == Hash && ts[0] in env.names then env.names[ts[0]] else ts[0]);
      (name == "if_not_exists" && ClosesIfNotExists(ts[2..], more, env)) || (name == "list_append" && ClosesListAppend(ts[2..], more, env))
    ensures Over(ParseSetAtom(ts + (more + tail), env), tail)
  {
    hide MarkOf, IfNotExistsArgs, ListAppendArgs;
    var w := ts + (more + tail);
    FrontStays(ts, more + tail, 1);
    assert w[1..][1..] == ts[2..] + (more + tail);
    if ClosesIfNotExists(ts[2..], more, env) {
      assert Over(IfNotExistsArgs(ts[2..] + (more + tail), env), tail);
    }
    if ClosesListAppend(ts[2..], more, env) {
      assert Over(ListAppendArgs(ts[2..] + (more + tail), env), tail);
    }
  }

  lemma {:induction false} CloseValue(ts: seq<string>, env: Env) returns (more: seq<string>)
    requires ParseSetValue(ts, env) == Panic
    ensures ClosesValue(ts, more, env) && Closers(more) && |more| <= 2 * |ts|
    decreases |ts|, 2
  {
    hide ParseSetAtom, NextMark, ClosesAtom, EndsInCall;
    var first := ParseSetAtom(ts, env);
    if first == Panic {
      more := CloseAtom(ts, env);
      forall tail | !NextMark(tail).Sign?
        ensures Over(ParseSetValue(ts + (more + tail), env), tail)
      {
        OverAtom(ts, more, tail, env);
      }
    } else {
      more := CloseAtom(first.rest[1..], env);
      SetValueIsTame(ts, env);
      forall tail | !NextMark(tail).Sign?
        ensures Over(ParseSetValue(ts + (more + tail), env), tail)
      {
        OverSecond(ts, more, tail, env);
      }
    }
  }

  lemma OverAtom(ts: seq<string>, more: seq<string>, tail: seq<string>, env: Env)
    requires ClosesAtom(ts, more, env) && !NextMark(tail).Sign?
    ensures Over(ParseSetValue(ts + (more + tail), env), tail)
  {
    hide ParseSetAtom, NextMark;
    assert Over(ParseSetAtom(ts + (more + tail), env), tail);
  }

  lemma OverSecond(ts: seq<string>, more: seq<string>, tail: seq<string>, env: Env)
    requires EndsInCall(ts, env) && ParseSetAtom(ts, env).Done?
    requires var rest := ParseSetAtom(ts, env).rest; NextMark(rest).Sign? && ClosesAtom(rest[1..], more, env)
    ensures Over(ParseSetValue(ts + (more + tail), env), tail)
  {
    hide ParseSetAtom, NextMark, EndsInCall;
    var rest := ParseSetAtom(ts, env).rest;
    AtomAgrees(ts, more + tail, env);
    EndsNonEmpty(rest, env);
    FrontStays(rest, more + tail, 1);
    assert Over(ParseSetAtom(rest[1..] + (more + tail), env), tail);
  }

  /** The completed clauses end with the SET clause that was cut. */
  ghost predicate Finished(r: Outcome<seq<UpdateOp>>) { r.Done? && r.rest == [] && LastIsSet(r.value) }

  lemma {:induction false} CloseSetClauses(ops: seq<UpdateOp>, ts: seq<string>, env: Env) returns (more: seq<string>)
    requires SetClauses(ops, ts, env) == Panic
    ensures Finished(SetClauses(ops, ts + more, env)) && Closers(more) && |more| <= 2 * |ts|
    decreases |ts|
  {
    hide ParseSetValue, EndsInCall, NextMark, ResolvePath, SkipComma, ClausesEnd, ClosesValue;
    NonEmptyUnlessEnd(ts);
    SecondIsThere(ts);
    SetClausesAreTame(ops, ts, env);
    EndsNonEmpty(ts, env);
    var val := ParseSetValue(ts[2..], env);
    if val == Panic {
      more := CloseValue(ts[2..], env);
      LastClause(ops, ts, more, env);
    } else {
      SkipCommaShrinks(val.rest);
      var next := ops + [ValueOp(SET, ResolvePath(ts[0], env), val.value)];
      more := CloseSetClauses(next, SkipComma(val.rest), env);
      ClauseThenMore(ops, ts, more, env);
    }
  }

  lemma SecondIsThere(ts: seq<string>)
    ensures NextMark(ts[if ts == [] then 0 else 1..]) == Equals ==> |ts| > 1
  {
  }

  lemma LastClause(ops: seq<UpdateOp>, ts: seq<string>, more: seq<string>, env: Env)
    requires |ts| > 1 && !ClausesEnd(ts) && NextMark(ts[1..]) == Equals && ClosesValue(ts[2..], more, env) && EndsInCall(ts, env)
    ensures Finished(SetClauses(ops, ts + more, env))
  {
    assert NextMark([]) == Nothing && ClausesEnd([]);
    hide ParseSetValue, EndsInCall, NextMark, ResolvePath, SkipComma, ClausesEnd;
    EndAgrees(ts, more, env);
    FrontStays(ts, more, 1);
    FrontStays(ts, more, 2);
    assert more + [] == more;
    assert Over(ParseSetValue(ts[2..] + (more + []), env), []);
    assert SkipComma([]) == [] by {
      SkipCommaShrinks([]);
    }
  }

  lemma ClauseThenMore(ops: seq<UpdateOp>, ts: seq<string>, more: seq<string>, env: Env)
    requires |ts| > 1 && !ClausesEnd(ts) && NextMark(ts[1..]) == Equals && EndsInCall(ts, env)
    requires ParseSetValue(ts[2..], env).Done?
    ensures var val := ParseSetValue(ts[2..], env);
      SetClauses(ops, ts + more, env) == SetClauses(ops + [ValueOp(SET, ResolvePath(ts[0], env), val.value)], SkipComma(val.rest) + more, env)
  {
    hide ParseSetValue, EndsInCall, NextMark, ResolvePath, SkipComma, ClausesEnd;
    EndAgrees(ts, more, env);
    FrontStays(ts, more, 1);
    FrontStays(ts, more, 2);
    CommaSecond(ts, env);
    ValueAgrees(ts[2..], more, env);
    EndsNonEmpty(ParseSetValue(ts[2..], env).rest, env);
    CommaAgrees(ParseSetValue(ts[2..], env).rest, more);
  }

  lemma {:induction false} PanicCompletes(ops: seq<UpdateOp>, ts: seq<string>, env: Env) returns (more: seq<string>)
    requires Sections(ops, ts, env) == Panic
    ensures Finished(Sections(ops, ts + more, env)) && Closers(more) && |more| <= 2 * |ts|
    decreases |ts|
  {
    hide EndsInCall, SetClauses, AddDeleteClauses, RemoveClauses, ActionOf, NextMark;
    PanicsOnlyAtTheEnd(ops, ts, env);
    EndsNonEmpty(ts, env);
    ActionIsNotLast(ts, env);
    var action := ActionOf(ts[0]).value;
    RemoveNeverPanics(ops, ts[1..], env);
    AddDeleteNeverPanics(action, ops, ts[1..], env);
    var part := Clauses(action, ops, ts[1..], env);
    if part == Panic {
      more := CloseSetClauses(ops, ts[1..], env);
      FrontStays(ts, more, 1);
    } else {
      more := PanicCompletes(part.value, part.rest, env);
      PanicsOnlyAtTheEnd(part.value, part.rest, env);
      FrontStays(ts, more, 1);
      SectionAgrees(action, ops, ts[1..], more, env);
    }
  }

  /** A section that is over before the call. */
  lemma SectionAgrees(action: Action, ops: seq<UpdateOp>, ts: seq<string>, more: seq<string>, env: Env)
    requires EndsInCall(ts, env)
    requires var part := Clauses(action, ops, ts, env); part.Done? && EndsInCall(part.rest, env)
    ensures Agree(Clauses(action, ops, ts, env), Clauses(action, ops, ts + more, env), more, env)
  {
    hide EndsInCall, SetClauses, AddDeleteClauses, RemoveClauses;
    SetClausesAgree(ops, ts, more, env);
    RemovePasses(ops, ts, more, env);
    if action != SET {
      AddDeletePasses(action, ops, ts, more, env);
    }
    EndsNonEmpty(Clauses(action, ops, ts, env).rest, env);
  }

  // ---- Exactly when ----

  /** `more` completes the expression, and the clause that it completes is a SET clause.
      There are finitely many candidates. */
  ghost predicate Completes(ts: seq<string>, more: seq<string>, env: Env) {
    Closers(more) && |more| <= 2 * |ts| && Finished(Sections([], ts + more, env))
  }

  lemma ClosersAreNoActions(more: seq<string>)
    requires Closers(more)
    ensures NoActions(more)
  {
    forall i | 0 <= i < |more|
      ensures ActionOf(more[i]).None?
    {
      assert |ToUpper(more[i])| == 1;
    }
  }

  /** The parser reads past its tokens exactly on those that stop behind the bracket of
      an if_not_exists, and that a path, a comma, a value and the brackets still open
      turn into a parseable expression ending in a SET clause. */
  lemma PanicsIff(ts: seq<string>, env: Env)
    ensures Sections([], ts, env) == Panic <==> EndsInCall(ts, env) && exists more :: Completes(ts, more, env)
  {
    hide Sections, EndsInCall, Closers;
    if Sections([], ts, env) == Panic {
      PanicsOnlyAtTheEnd([], ts, env);
      var more := PanicCompletes([], ts, env);
      assert Completes(ts, more, env);
    }
    if EndsInCall(ts, env) && exists more :: Completes(ts, more, env) {
      var more :| Completes(ts, more, env);
      ClosersAreNoActions(more);
      CutPanics([], ts, more, env);
    }
  }
}
