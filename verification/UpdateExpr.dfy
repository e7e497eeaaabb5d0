/** Update expressions in memdb (memdb/expression.go): parsing and applying. */
module UpdateExpr {
  import opened Base
  import opened Values
  import opened Lexer
  import opened Parser
  import opened Paths

  datatype Action = SET | ADD | REMOVE | DELETE

  function ActionName(a: Action): string {
    match a
    case SET => "SET"
    case ADD => "ADD"
    case REMOVE => "REMOVE"
    case DELETE => "DELETE"
  }

  /** The right-hand sides of update clauses. */
  datatype UpdateValue =
    | Literal(val: AttributeValue)
    | PathValue(path: seq<string>)
    | Arithmetic(left: UpdateValue, plus: bool, right: UpdateValue)
    | IfNotExists(path: seq<string>, default: UpdateValue)
    | ListAppend(first: UpdateValue, second: UpdateValue)

  /** A parsed clause; REMOVE has no value. */
  datatype UpdateOp =
    | ValueOp(action: Action, path: seq<string>, value: UpdateValue)
    | RemoveOp(path: seq<string>)

  // ---- Tokens ----

  datatype Mark = Nothing | Value | Hash | Ident | Equals | Comma | Sign(plus: bool) | Open | Shut | Other

  function MarkOf(tok: string): Mark {
    if tok == "" then Nothing
    else if tok[0] == ':' then Value
    else if tok[0] == '#' then Hash
    else if IsIdentStart(tok[0]) then Ident
    else if |tok| > 1 then Other
    else if tok[0] == '=' then Equals
    else if tok[0] == ',' then Mark.Comma
    else if tok[0] == '+' then Sign(true)
    else if tok[0] == '-' then Sign(false)
    else if tok[0] == '(' then Open
    else if tok[0] == ')' then Shut
    else Other
  }

  function ActionOf(tok: string): Option<Action> {
    var upper := ToUpper(tok);
    if upper == "SET" then Some(SET)
    else if upper == "ADD" then Some(ADD)
    else if upper == "REMOVE" then Some(REMOVE)
    else if upper == "DELETE" then Some(DELETE)
    else None
  }

  function NextMark(ts: seq<string>): (m: Mark)
    ensures m != Nothing ==> ts != []
  {
    MarkOf(Peek(ts))
  }

  /** Where a list of clauses stops. */
  predicate ClausesEnd(ts: seq<string>) { NextMark(ts) == Nothing || ActionOf(Peek(ts)).Some? }

  /** A parse: a phrase, an error, or an index past the end of the tokens, which
      stops the Go program with a panic. */
  datatype Outcome<+T> = Done(value: T, rest: seq<string>) | Bad | Panic

  // ---- Parsing ----

  function ResolvePath(tok: string, env: Env): seq<string> {
    if MarkOf(tok) == Hash && tok in env.names then SplitDots(env.names[tok]) else SplitDots(tok)
  }

  /** resolveVal: a literal, or a path to read. */
  function ResolveVal(tok: string, env: Env): Option<UpdateValue> {
    match MarkOf(tok)
    case Value => if tok in env.values then Some(Literal(env.values[tok])) else None
    case Hash => if tok in env.names then Some(PathValue(SplitDots(env.names[tok]))) else None
    case _ => Some(PathValue(SplitDots(tok)))
  }

  function ParseSetValue(ts: seq<string>, env: Env): (r: Outcome<UpdateValue>)
    ensures r.Done? ==> |r.rest| < |ts|
    decreases |ts|, 2
  {
    match ParseSetAtom(ts, env)
    case Done(first, rest) =>
      if NextMark(rest).Sign? then
        match ParseSetAtom(rest[1..], env)
        case Done(second, rest') => Done(Arithmetic(first, NextMark(rest).plus, second), rest')
        case other => other
      else Done(first, rest)
    case other => other
  }

  function ParseSetAtom(ts: seq<string>, env: Env): (r: Outcome<UpdateValue>)
    ensures r.Done? ==> |r.rest| < |ts|
    decreases |ts|, 1
  {
    var tok := Peek(ts);
    match NextMark(ts)
    case Value => (
      match ResolveVal(tok, env)
      case Some(v) => Done(v, ts[1..])
      case None => Bad)
    case Hash =>
      if NextMark(ts[1..]) == Open then
        ParseSetFunction(if tok in env.names then env.names[tok] else tok, ts[1..], env)
      else (
        match ResolveVal(tok, env)
        case Some(v) => Done(v, ts[1..])
        case None => Bad)
    case Ident =>
      if NextMark(ts[1..]) == Open then ParseSetFunction(tok, ts[1..], env)
      else Done(PathValue(SplitDots(tok)), ts[1..])
    case _ => Bad
  }

  /** ts starts at the opening parenthesis. */
  function ParseSetFunction(name: string, ts: seq<string>, env: Env): (r: Outcome<UpdateValue>)
    requires NextMark(ts) == Open
    ensures r.Done? ==> |r.rest| < |ts|
    decreases |ts|, 0
  {
    var lower := ToLower(name);
    if lower == "if_not_exists" then IfNotExistsArgs(ts[1..], env)
    else if lower == "list_append" then ListAppendArgs(ts[1..], env)
    else Bad
  }

  function IfNotExistsArgs(ts: seq<string>, env: Env): (r: Outcome<UpdateValue>)
    ensures r.Done? ==> |r.rest| < |ts|
    decreases |ts|, 3
  {
    if ts == [] then Panic
    else if NextMark(ts[1..]) != Mark.Comma then Bad
    else
      match ParseSetValue(ts[2..], env)
      case Done(val, rest) =>
        if NextMark(rest) == Shut then Done(IfNotExists(ResolvePath(ts[0], env), val), rest[1..]) else Bad
      case other => other
  }

  function ListAppendArgs(ts: seq<string>, env: Env): (r: Outcome<UpdateValue>)
    ensures r.Done? ==> |r.rest| < |ts|
    decreases |ts|, 3
  {
    match ParseSetValue(ts, env)
    case Done(first, rest) =>
      if NextMark(rest) != Mark.Comma then Bad
      else (
        match ParseSetValue(rest[1..], env)
        case Done(second, rest') =>
          if NextMark(rest') == Shut then Done(ListAppend(first, second), rest'[1..]) else Bad
        case other => other)
    case other => other
  }

  function SkipComma(ts: seq<string>): seq<string> { if NextMark(ts) == Mark.Comma then ts[1..] else ts }

  lemma SkipCommaShrinks(ts: seq<string>)
    ensures |SkipComma(ts)| <= |ts|
  {
  }

  lemma NonEmptyUnlessEnd(ts: seq<string>)
    ensures !ClausesEnd(ts) ==> ts != []
  {
  }

  /** The loop of parseSetClauses. */
  function SetClauses(ops: seq<UpdateOp>, ts: seq<string>, env: Env): (r: Outcome<seq<UpdateOp>>)
    ensures r.Done? ==> |r.rest| <= |ts|
    decreases |ts|
  {
    if ClausesEnd(ts) then Done(ops, ts)
    else if NextMark(ts[1..]) != Equals then Bad
    else
      match ParseSetValue(ts[2..], env)
      case Done(val, rest) => SetClauses(ops + [ValueOp(SET, ResolvePath(ts[0], env), val)], SkipComma(rest), env)
      case Bad => Bad
      case Panic => Panic
  }

  /** The loop of parseAddDeleteClauses. */
  function AddDeleteClauses(action: Action, ops: seq<UpdateOp>, ts: seq<string>, env: Env): (r: Outcome<seq<UpdateOp>>)
    ensures r.Done? ==> |r.rest| <= |ts|
    decreases |ts|
  {
    if ClausesEnd(ts) then Done(ops, ts)
    else if ClausesEnd(ts[1..]) then Bad
    else
      match ResolveVal(ts[1], env)
      case Some(val) => AddDeleteClauses(action, ops + [ValueOp(action, ResolvePath(ts[0], env), val)], SkipComma(ts[2..]), env)
      case None => Bad
  }

  /** The loop of parseRemoveClauses. */
  function RemoveClauses(ops: seq<UpdateOp>, ts: seq<string>, env: Env): (r: Outcome<seq<UpdateOp>>)
    ensures r.Done? ==> |r.rest| <= |ts|
    decreases |ts|
  {
    if ClausesEnd(ts) then Done(ops, ts)
    else RemoveClauses(ops + [RemoveOp(ResolvePath(ts[0], env))], SkipComma(ts[1..]), env)
  }

  function Clauses(action: Action, ops: seq<UpdateOp>, ts: seq<string>, env: Env): (r: Outcome<seq<UpdateOp>>)
    ensures r.Done? ==> |r.rest| <= |ts|
  {
    match action
    case SET => SetClauses(ops, ts, env)
    case REMOVE => RemoveClauses(ops, ts, env)
    case _ => AddDeleteClauses(action, ops, ts, env)
  }

  /** The loop of parse over the sections. */
  function Sections(ops: seq<UpdateOp>, ts: seq<string>, env: Env): Outcome<seq<UpdateOp>>
    decreases |ts|
  {
    if ts == [] then Done(ops, [])
    else
      match ActionOf(ts[0])
      case None => Bad
      case Some(action) =>
        match Clauses(action, ops, ts[1..], env)
        case Done(ops', rest) => Sections(ops', rest, env)
        case other => other
  }

  function ParseUpdate(expression: string, env: Env): Outcome<seq<UpdateOp>> {
    Sections([], MemTokens(expression), env)
  }

  // ---- The mutable parser ----

  /** What a parsing method returns; Go's panic is an outcome here. */
  datatype Reply<+T> = Yes(value: T) | No | Panicked

  class UpdateParser {
    const tokens: seq<string>
    const env: Env
    var pos: nat

    constructor (tokens: seq<string>, env: Env)
      ensures this.tokens == tokens && this.env == env && Valid() && Rest() == tokens
    {
      this.tokens, this.env, pos := tokens, env, 0;
    }

    ghost predicate Valid()
      reads this
    {
      pos <= |tokens|
    }

    ghost function Rest(): seq<string>
      requires Valid()
      reads this
    {
      tokens[pos..]
    }

    ghost predicate Reports<T>(p: Outcome<T>, r: Reply<T>)
      reads this
    {
      Valid() &&
      match p
      case Done(v, rest) => r == Yes(v) && Rest() == rest
      case Bad => r == No
      case Panic => r == Panicked
    }

    method PeekToken() returns (tok: string, mark: Mark)
      requires Valid()
      ensures tok == Peek(Rest()) && mark == NextMark(Rest())
    {
      tok := if pos >= |tokens| then "" else tokens[pos];
      mark := MarkOf(tok);
    }

    method AtEnd() returns (end: bool)
      requires Valid()
      ensures end == ClausesEnd(Rest())
    {
      var tok, mark := PeekToken();
      end := mark == Nothing || ActionOf(tok).Some?;
    }

    method Advance() returns (tok: string)
      requires Valid() && Rest() != []
      modifies `pos
      ensures Valid() && tok == old(Rest())[0] && Rest() == old(Rest())[1..]
    {
      tok := tokens[pos];
      pos := pos + 1;
    }

    method Expect(m: Mark) returns (ok: bool)
      requires Valid() && m != Nothing
      modifies `pos
      ensures Valid() && ok == (old(NextMark(Rest())) == m)
      ensures Rest() == if ok then old(Rest())[1..] else old(Rest())
    {
      var _, next := PeekToken();
      ok := next == m;
      if ok {
        pos := pos + 1;
      }
    }

    method ParseValue() returns (r: Reply<UpdateValue>)
      requires Valid()
      modifies `pos
      ensures Reports(ParseSetValue(old(Rest()), env), r)
      decreases |tokens| - pos, 2
    {
      hide MarkOf;
      r := ParseAtom();
      if !r.Yes? {
        return;
      }
      var _, next := PeekToken();
      if next.Sign? {
        var _ := Advance();
        var first := r.value;
        r := ParseAtom();
        if r.Yes? {
          r := Yes(Arithmetic(first, next.plus, r.value));
        }
      }
    }

    method ParseAtom() returns (r: Reply<UpdateValue>)
      requires Valid()
      modifies `pos
      ensures Reports(ParseSetAtom(old(Rest()), env), r)
      decreases |tokens| - pos, 1
    {
      hide MarkOf;
      var tok, mark := PeekToken();
      match mark
      case Value =>
        var _ := Advance();
        r := match ResolveVal(tok, env) case Some(v) => Yes(v) case None => No;
      case Hash =>
        var _ := Advance();
        var _, next := PeekToken();
        if next == Open {
          r := ParseFunction(if tok in env.names then env.names[tok] else tok);
        } else {
          r := match ResolveVal(tok, env) case Some(v) => Yes(v) case None => No;
        }
      case Ident =>
        var _ := Advance();
        var _, next := PeekToken();
        if next == Open {
          r := ParseFunction(tok);
        } else {
          r := Yes(PathValue(SplitDots(tok)));
        }
      case _ =>
        r := No;
    }

    method ParseFunction(name: string) returns (r: Reply<UpdateValue>)
      requires Valid() && NextMark(Rest()) == Open
      modifies `pos
      ensures Reports(ParseSetFunction(name, old(Rest()), env), r)
      decreases |tokens| - pos, 0
    {
      hide MarkOf;
      var _ := Advance();
      var lower := ToLower(name);
      if lower == "if_not_exists" {
        r := ParseIfNotExists();
      } else if lower == "list_append" {
        r := ParseListAppend();
      } else {
        r := No;
      }
    }

    method ParseIfNotExists() returns (r: Reply<UpdateValue>)
      requires Valid()
      modifies `pos
      ensures Reports(IfNotExistsArgs(old(Rest()), env), r)
      decreases |tokens| - pos, 3
    {
      hide MarkOf;
      if pos >= |tokens| {
        return Panicked; // advance() reads past the end
      }
      var pathTok := Advance();
      var comma := Expect(Mark.Comma);
      if !comma {
        return No;
      }
      r := ParseValue();
      if r.Yes? {
        var shut := Expect(Shut);
        r := if shut then Yes(IfNotExists(ResolvePath(pathTok, env), r.value)) else No;
      }
    }

    method ParseListAppend() returns (r: Reply<UpdateValue>)
      requires Valid()
      modifies `pos
      ensures Reports(ListAppendArgs(old(Rest()), env), r)
      decreases |tokens| - pos, 3
    {
      hide MarkOf;
      r := ParseValue();
      if !r.Yes? {
        return;
      }
      var first := r.value;
      var comma := Expect(Mark.Comma);
      if !comma {
        return No;
      }
      r := ParseValue();
      if r.Yes? {
        var shut := Expect(Shut);
        r := if shut then Yes(ListAppend(first, r.value)) else No;
      }
    }

    method ParseClauses(action: Action, read: seq<UpdateOp>) returns (r: Reply<seq<UpdateOp>>)
      requires Valid()
      modifies `pos
      ensures Reports(Clauses(action, read, old(Rest()), env), r)
    {
      hide MarkOf, ActionOf;
      match action
      case SET => r := ParseSetClauses(read);
      case REMOVE => r := ParseRemoveClauses(read);
      case _ => r := ParseAddDeleteClauses(action, read);
    }

    method ParseSetClauses(read: seq<UpdateOp>) returns (r: Reply<seq<UpdateOp>>)
      requires Valid()
      modifies `pos
      ensures Reports(SetClauses(read, old(Rest()), env), r)
    {
      hide MarkOf, ActionOf, ParseSetValue;
      var ops := read;
      var end := AtEnd();
      while !end
        invariant Valid() && end == ClausesEnd(Rest())
        invariant SetClauses(ops, Rest(), env) == SetClauses(read, old(Rest()), env)
        decreases |tokens| - pos
      {
        var pathTok := Advance();
        var equals := Expect(Equals);
        if !equals {
          return No;
        }
        var val := ParseValue();
        if !val.Yes? {
          return if val == No then No else Panicked;
        }
        ops := ops + [ValueOp(SET, ResolvePath(pathTok, env), val.value)];
        var _ := Expect(Mark.Comma);
        end := AtEnd();
      }
      r := Yes(ops);
    }

    method ParseAddDeleteClauses(action: Action, read: seq<UpdateOp>) returns (r: Reply<seq<UpdateOp>>)
      requires Valid()
      modifies `pos
      ensures Reports(AddDeleteClauses(action, read, old(Rest()), env), r)
    {
      hide MarkOf, ActionOf, ResolveVal;
      var ops := read;
      var end := AtEnd();
      while !end
        invariant Valid() && end == ClausesEnd(Rest())
        invariant AddDeleteClauses(action, ops, Rest(), env) == AddDeleteClauses(action, read, old(Rest()), env)
        decreases |tokens| - pos
      {
        var pathTok := Advance();
        var noValue := AtEnd();
        if noValue {
          return No;
        }
        var valTok := Advance();
        var val := ResolveVal(valTok, env);
        if val.None? {
          return No;
        }
        ops := ops + [ValueOp(action, ResolvePath(pathTok, env), val.value)];
        var _ := Expect(Mark.Comma);
        end := AtEnd();
      }
      r := Yes(ops);
    }

    method ParseRemoveClauses(read: seq<UpdateOp>) returns (r: Reply<seq<UpdateOp>>)
      requires Valid()
      modifies `pos
      ensures Reports(RemoveClauses(read, old(Rest()), env), r)
    {
      hide MarkOf, ActionOf;
      var ops := read;
      var end := AtEnd();
      while !end
        invariant Valid() && end == ClausesEnd(Rest())
        invariant RemoveClauses(ops, Rest(), env) == RemoveClauses(read, old(Rest()), env)
        decreases |tokens| - pos
      {
        var pathTok := Advance();
        ops := ops + [RemoveOp(ResolvePath(pathTok, env))];
        var _ := Expect(Mark.Comma);
        end := AtEnd();
      }
      r := Yes(ops);
    }

    method Parse() returns (r: Reply<seq<UpdateOp>>)
      requires Valid()
      modifies `pos
      ensures var p := Sections([], old(Rest()), env);
        match p case Done(ops, _) => r == Yes(ops) case Bad => r == No case Panic => r == Panicked
    {
      hide MarkOf, ActionOf, Clauses;
      var ops: seq<UpdateOp> := [];
      while pos < |tokens|
        invariant Valid()
        invariant Sections(ops, Rest(), env) == Sections([], old(Rest()), env)
      {
        var tok := Advance();
        var action := ActionOf(tok);
        if action.None? {
          return No;
        }
        var more := ParseClauses(action.value, ops);
        if !more.Yes? {
          return more;
        }
        ops := more.value;
      }
      r := Yes(ops);
    }
  }

  method ParseUpdateExpression(expression: string, env: Env) returns (r: Reply<seq<UpdateOp>>)
    ensures match ParseUpdate(expression, env)
            case Done(ops, _) => r == Yes(ops)
            case Bad => r == No
            case Panic => r == Panicked
  {
    hide MemTokens, Sections;
    var tokens := TokenizeMem(expression);
    var p := new UpdateParser(tokens, env);
    r := p.Parse();
  }
}
