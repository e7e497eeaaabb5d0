/** The one input family on which memdb's update parser reads past its tokens
    (memdb/expression.go): an expression that ends in "if_not_exists(". */
module UpdatePanic {
  import opened Base
  import opened Values
  import opened Lexer
  import opened Parser
  import opened UpdateExpr

  predicate Suffix(r: seq<string>, ts: seq<string>) { |r| <= |ts| && r == ts[|ts| - |r|..] }

  lemma SuffixTrans(a: seq<string>, b: seq<string>, c: seq<string>)
    requires Suffix(a, b) && Suffix(b, c)
    ensures Suffix(a, c)
  {
  }

  lemma DropIsSuffix(ts: seq<string>, n: nat)
    requires n <= |ts|
    ensures Suffix(ts[n..], ts)
  {
  }

  predicate NamesIfNotExists(tok: string, env: Env) {
    (MarkOf(tok) == Ident && ToLower(tok) == "if_not_exists")
    || (MarkOf(tok) == Hash && ToLower(if tok in env.names then env.names[tok] else tok) == "if_not_exists")
  }

  /** The last two tokens are if_not_exists, as a name or an alias, and "(". */
  predicate EndsInCall(ts: seq<string>, env: Env) {
    |ts| >= 2 && MarkOf(ts[|ts| - 1]) == Open && NamesIfNotExists(ts[|ts| - 2], env)
  }

  lemma SuffixEnds(r: seq<string>, ts: seq<string>, env: Env)
    requires Suffix(r, ts) && EndsInCall(r, env)
    ensures EndsInCall(ts, env)
  {
    assert r[|r| - 1] == ts[|ts| - 1] && r[|r| - 2] == ts[|ts| - 2];
  }

  /** A phrase leaves a suffix of its tokens, and only panics at the end of a call. */
  predicate Tame<T>(r: Outcome<T>, ts: seq<string>, env: Env) {
    (r.Done? ==> Suffix(r.rest, ts)) && (r.Panic? ==> EndsInCall(ts, env))
  }

  /** Tame on a suffix is tame on the whole. */
  lemma TameOnSuffix<T>(r: Outcome<T>, part: seq<string>, ts: seq<string>, env: Env)
    requires Tame(r, part, env) && Suffix(part, ts)
    ensures Tame(r, ts, env)
  {
    hide EndsInCall;
    if r.Done? {
      SuffixTrans(r.rest, part, ts);
    }
    if r.Panic? {
      SuffixEnds(part, ts, env);
    }
  }

  lemma {:induction false} SetValueIsTame(ts: seq<string>, env: Env)
    ensures Tame(ParseSetValue(ts, env), ts, env)
    decreases |ts|, 2
  {
    hide ParseSetAtom, EndsInCall, Suffix, NextMark;
    SetAtomIsTame(ts, env);
    var first := ParseSetAtom(ts, env);
    if first.Done? && NextMark(first.rest).Sign? {
      DropIsSuffix(first.rest, 1);
      SetAtomIsTame(first.rest[1..], env);
      SuffixTrans(first.rest[1..], first.rest, ts);
      TameOnSuffix(ParseSetAtom(first.rest[1..], env), first.rest[1..], ts, env);
    }
  }

  lemma {:induction false} SetAtomIsTame(ts: seq<string>, env: Env)
    ensures Tame(ParseSetAtom(ts, env), ts, env)
    decreases |ts|, 1
  {
    if ts != [] {
      DropIsSuffix(ts, 1);
      if NextMark(ts[1..]) == Open {
        var tok := ts[0];
        var name := if NextMark(ts) == Hash && tok in env.names then env.names[tok] else tok;
        FunctionIsTame(name, ts, env);
        hide ParseSetFunction, EndsInCall, Suffix;
      } else {
        hide Suffix, EndsInCall;
      }
    }
  }

  /** A call, with the token of its name still in front. */
  lemma {:induction false} FunctionIsTame(name: string, ts: seq<string>, env: Env)
    requires ts != [] && NextMark(ts[1..]) == Open
    ensures (ToLower(name) == "if_not_exists" && |ts| == 2 ==> NamesIfNotExists(ts[0], env)) ==> Tame(ParseSetFunction(name, ts[1..], env), ts, env)
    decreases |ts|, 0
  {
    assert ts[1..][1..] == ts[2..];
    DropIsSuffix(ts, 2);
    var lower := ToLower(name);
    if lower == "if_not_exists" {
      if |ts| > 2 {
        IfNotExistsIsTame(ts[2..], env);
        TameOnSuffix(IfNotExistsArgs(ts[2..], env), ts[2..], ts, env);
      } else {
        assert ts[2..] == [];
        assert ts[1..][0] == ts[1];
        assert IfNotExistsArgs(ts[2..], env) == Panic;
      }
    } else if lower == "list_append" {
      ListAppendIsTame(ts[2..], env);
      TameOnSuffix(ListAppendArgs(ts[2..], env), ts[2..], ts, env);
    }
  }

  lemma {:induction false} IfNotExistsIsTame(ts: seq<string>, env: Env)
    requires ts != []
    ensures Tame(IfNotExistsArgs(ts, env), ts, env)
    decreases |ts|, 3
  {
    hide ParseSetValue, EndsInCall, Suffix, NextMark;
    if NextMark(ts[1..]) == Mark.Comma {
      DropIsSuffix(ts, 2);
      SetValueIsTame(ts[2..], env);
      TameOnSuffix(ParseSetValue(ts[2..], env), ts[2..], ts, env);
      ShutIsTame(ParseSetValue(ts[2..], env), ts);
    }
  }

  lemma ShutIsTame(r: Outcome<UpdateValue>, ts: seq<string>)
    ensures r.Done? && Suffix(r.rest, ts) && NextMark(r.rest) == Shut ==> Suffix(r.rest[1..], ts)
  {
  }

  lemma {:induction false} ListAppendIsTame(ts: seq<string>, env: Env)
    ensures Tame(ListAppendArgs(ts, env), ts, env)
    decreases |ts|, 3
  {
    hide ParseSetValue, EndsInCall, Suffix, NextMark;
    SetValueIsTame(ts, env);
    var first := ParseSetValue(ts, env);
    if first.Done? && NextMark(first.rest) == Mark.Comma {
      DropIsSuffix(first.rest, 1);
      SuffixTrans(first.rest[1..], first.rest, ts);
      SetValueIsTame(first.rest[1..], env);
      TameOnSuffix(ParseSetValue(first.rest[1..], env), first.rest[1..], ts, env);
      ShutIsTame(ParseSetValue(first.rest[1..], env), ts);
    }
  }

  lemma SkipCommaIsSuffix(ts: seq<string>)
    ensures Suffix(SkipComma(ts), ts)
  {
  }

  lemma {:induction false} SetClausesAreTame(ops: seq<UpdateOp>, ts: seq<string>, env: Env)
    ensures Tame(SetClauses(ops, ts, env), ts, env)
    decreases |ts|
  {
    hide ParseSetValue, EndsInCall, Suffix, NextMark, ResolvePath, SkipComma;
    DropIsSuffix(ts, 0);
    assert ts[0..] == ts;
    if !ClausesEnd(ts) && NextMark(ts[1..]) == Equals {
      DropIsSuffix(ts, 2);
      SetValueIsTame(ts[2..], env);
      var val := ParseSetValue(ts[2..], env);
      TameOnSuffix(val, ts[2..], ts, env);
      if val.Done? {
        var more := ops + [ValueOp(SET, ResolvePath(ts[0], env), val.value)];
        SkipCommaIsSuffix(val.rest);
        SuffixTrans(SkipComma(val.rest), val.rest, ts);
        SkipCommaShrinks(val.rest);
        SetClausesAreTame(more, SkipComma(val.rest), env);
        TameOnSuffix(SetClauses(more, SkipComma(val.rest), env), SkipComma(val.rest), ts, env);
      }
    }
  }

  lemma {:induction false} AddDeleteClausesAreTame(action: Action, ops: seq<UpdateOp>, ts: seq<string>, env: Env)
    ensures Tame(AddDeleteClauses(action, ops, ts, env), ts, env)
    decreases |ts|
  {
    hide EndsInCall, Suffix, NextMark, ResolvePath, ResolveVal, SkipComma;
    DropIsSuffix(ts, 0);
    assert ts[0..] == ts;
    if !ClausesEnd(ts) && !ClausesEnd(ts[1..]) && ResolveVal(ts[1], env).Some? {
      var more := ops + [ValueOp(action, ResolvePath(ts[0], env), ResolveVal(ts[1], env).value)];
      DropIsSuffix(ts, 2);
      SkipCommaIsSuffix(ts[2..]);
      SuffixTrans(SkipComma(ts[2..]), ts[2..], ts);
      SkipCommaShrinks(ts[2..]);
      AddDeleteClausesAreTame(action, more, SkipComma(ts[2..]), env);
      TameOnSuffix(AddDeleteClauses(action, more, SkipComma(ts[2..]), env), SkipComma(ts[2..]), ts, env);
    }
  }

  lemma {:induction false} RemoveClausesAreTame(ops: seq<UpdateOp>, ts: seq<string>, env: Env)
    ensures Tame(RemoveClauses(ops, ts, env), ts, env)
    decreases |ts|
  {
    hide EndsInCall, Suffix, NextMark, ResolvePath, SkipComma;
    DropIsSuffix(ts, 0);
    assert ts[0..] == ts;
    if !ClausesEnd(ts) {
      var more := ops + [RemoveOp(ResolvePath(ts[0], env))];
      DropIsSuffix(ts, 1);
      SkipCommaIsSuffix(ts[1..]);
      SuffixTrans(SkipComma(ts[1..]), ts[1..], ts);
      SkipCommaShrinks(ts[1..]);
      RemoveClausesAreTame(more, SkipComma(ts[1..]), env);
      TameOnSuffix(RemoveClauses(more, SkipComma(ts[1..]), env), SkipComma(ts[1..]), ts, env);
    }
  }

  /** The parser reads past its tokens only on inputs that end in a call of
      if_not_exists with nothing behind the parenthesis. */
  lemma {:induction false} PanicsOnlyAtTheEnd(ops: seq<UpdateOp>, ts: seq<string>, env: Env)
    ensures Sections(ops, ts, env) == Panic ==> EndsInCall(ts, env)
    decreases |ts|
  {
    hide EndsInCall, Suffix, SetClauses, AddDeleteClauses, RemoveClauses, ActionOf;
    if ts != [] && ActionOf(ts[0]).Some? {
      var action := ActionOf(ts[0]).value;
      DropIsSuffix(ts, 1);
      SetClausesAreTame(ops, ts[1..], env);
      RemoveClausesAreTame(ops, ts[1..], env);
      AddDeleteClausesAreTame(action, ops, ts[1..], env);
      var r := Clauses(action, ops, ts[1..], env);
      TameOnSuffix(r, ts[1..], ts, env);
      if r.Done? {
        PanicsOnlyAtTheEnd(r.value, r.rest, env);
        if Sections(r.value, r.rest, env) == Panic {
          SuffixEnds(r.rest, ts, env);
        }
      }
    }
  }

  /** And it does so on the shortest such input. */
  lemma PanicsThere(path: string, name: string, env: Env)
    requires NextMark([path]) != Nothing && ActionOf(path) == None && NamesIfNotExists(name, env)
    ensures Sections([], ["SET", path, "=", name, "("], env) == Panic
  {
    var ts := ["SET", path, "=", name, "("];
    assert ToUpper("SET") == "SET" by {
      assert forall i :: 0 <= i < 3 ==> UpperChar("SET"[i]) == "SET"[i];
    }
    assert ts[1..] == [path, "=", name, "("];
    var clauses := [path, "=", name, "("];
    assert clauses[1..] == ["=", name, "("] && clauses[2..] == [name, "("];
    var call := [name, "("];
    assert call[1..] == ["("] && ["("][1..] == [];
    CallPanics(name, env);
    assert ParseSetValue(call, env) == Panic;
    assert SetClauses([], clauses, env) == Panic;
  }

  lemma CallPanics(name: string, env: Env)
    requires NamesIfNotExists(name, env)
    ensures ParseSetAtom([name, "("], env) == Panic
  {
    var call := [name, "("];
    assert call[1..] == ["("] && ["("][1..] == [];
    assert IfNotExistsArgs([], env) == Panic;
  }
}
