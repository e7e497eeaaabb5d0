/** Update expressions as people write them, and the clauses that memdb's parser
    (memdb/expression.go) makes of them. */
module UpdatePhrases {
  import opened Base
  import opened Values
  import opened Lexer
  import opened Parser
  import opened RoundTrip
  import opened UpdateExpr
  import Phrases
  import UpdateEval
  import UpdateLaws

  // ---- Phrases ----

  datatype Atom =
    | Tok(tok: string)
    | IfNotExistsOf(path: string, default: Rhs)
    | ListAppendOf(first: Rhs, second: Rhs)

  datatype Rhs = One(atom: Atom) | Plus(left: Atom, right: Atom) | Minus(left: Atom, right: Atom)

  datatype Clause =
    | SetTo(path: string, value: Rhs)
    | AddTo(path: string, val: string)
    | Removed(path: string)
    | DeleteFrom(path: string, val: string)

  /** One section: its keyword, in any letter case, and its clauses. */
  datatype Section = Section(keyword: string, clauses: seq<Clause>)

  predicate GoodAtom(a: Atom) {
    match a
    case Tok(tok) => Phrases.GoodTok(tok)
    case IfNotExistsOf(path, default) => Phrases.GoodTok(path) && GoodRhs(default)
    case ListAppendOf(first, second) => GoodRhs(first) && GoodRhs(second)
  }

  predicate GoodRhs(r: Rhs) {
    match r
    case One(a) => GoodAtom(a)
    case Plus(a, b) => GoodAtom(a) && GoodAtom(b)
    case Minus(a, b) => GoodAtom(a) && GoodAtom(b)
  }

  predicate IsAction(tok: string) { ToUpper(tok) in {"SET", "ADD", "REMOVE", "DELETE"} }

  /** A token that does not start a section. */
  predicate PlainTok(tok: string) { Phrases.GoodTok(tok) && !IsAction(tok) }

  predicate GoodClause(c: Clause) {
    match c
    case SetTo(path, value) => PlainTok(path) && GoodRhs(value)
    case AddTo(path, val) => PlainTok(path) && PlainTok(val)
    case Removed(path) => PlainTok(path)
    case DeleteFrom(path, val) => PlainTok(path) && PlainTok(val)
  }

  predicate Fits(c: Clause, keyword: string) {
    match c
    case SetTo(_, _) => ToUpper(keyword) == "SET"
    case AddTo(_, _) => ToUpper(keyword) == "ADD"
    case Removed(_) => ToUpper(keyword) == "REMOVE"
    case DeleteFrom(_, _) => ToUpper(keyword) == "DELETE"
  }

  predicate GoodSection(s: Section) {
    && IsIdentifier(s.keyword) && IsAction(s.keyword) && s.clauses != []
    && forall i :: 0 <= i < |s.clauses| ==> GoodClause(s.clauses[i]) && Fits(s.clauses[i], s.keyword)
  }

  predicate GoodSections(ss: seq<Section>) { forall i :: 0 <= i < |ss| ==> GoodSection(ss[i]) }

  // ---- Text ----

  function AtomText(a: Atom): string {
    match a
    case Tok(tok) => tok
    case IfNotExistsOf(path, default) => "if_not_exists" + ("(" + (path + ", " + RhsText(default)) + ")")
    case ListAppendOf(first, second) => "list_append" + ("(" + (RhsText(first) + ", " + RhsText(second)) + ")")
  }

  function RhsText(r: Rhs): string {
    match r
    case One(a) => AtomText(a)
    case Plus(a, b) => AtomText(a) + (" " + ("+" + (" " + AtomText(b))))
    case Minus(a, b) => AtomText(a) + (" " + ("-" + (" " + AtomText(b))))
  }

  function ClauseText(c: Clause): string {
    match c
    case SetTo(path, value) => path + (" " + ("=" + (" " + RhsText(value))))
    case AddTo(path, val) => path + (" " + val)
    case Removed(path) => path
    case DeleteFrom(path, val) => path + (" " + val)
  }

  function ClauseTexts(cs: seq<Clause>): seq<string> { if cs == [] then [] else [ClauseText(cs[0])] + ClauseTexts(cs[1..]) }

  function SectionText(s: Section): string { s.keyword + (" " + Join(ClauseTexts(s.clauses), ", ")) }

  function Text(ss: seq<Section>): string {
    if ss == [] then "" else if |ss| == 1 then SectionText(ss[0]) else SectionText(ss[0]) + (" " + Text(ss[1..]))
  }

  // ---- What they mean ----

  function TokValue(tok: string, env: Env): Option<UpdateValue>
    requires Phrases.GoodTok(tok)
  {
    if tok[0] == ':' then (match Lookup(env.values, tok) case Some(v) => Some(Literal(v)) case None => None)
    else if tok[0] == '#' then (match Lookup(env.names, tok) case Some(name) => Some(PathValue(SplitDots(name))) case None => None)
    else Some(PathValue(SplitDots(tok)))
  }

  /** A path to write or to look for; an unknown alias stands for itself. */
  function TokPath(tok: string, env: Env): seq<string>
    requires Phrases.GoodTok(tok)
  {
    if tok[0] == '#' && tok in env.names then SplitDots(env.names[tok]) else SplitDots(tok)
  }

  function AtomValue(a: Atom, env: Env): Option<UpdateValue>
    requires GoodAtom(a)
  {
    match a
    case Tok(tok) => TokValue(tok, env)
    case IfNotExistsOf(path, default) => IfElse(TokPath(path, env), RhsValue(default, env))
    case ListAppendOf(first, second) => Joined(RhsValue(first, env), RhsValue(second, env))
  }

  function RhsValue(r: Rhs, env: Env): Option<UpdateValue>
    requires GoodRhs(r)
  {
    match r
    case One(a) => AtomValue(a, env)
    case Plus(a, b) => Calculated(AtomValue(a, env), true, AtomValue(b, env))
    case Minus(a, b) => Calculated(AtomValue(a, env), false, AtomValue(b, env))
  }

  function IfElse(path: seq<string>, default: Option<UpdateValue>): Option<UpdateValue> {
    match default case Some(v) => Some(IfNotExists(path, v)) case None => None
  }

  function Joined(a: Option<UpdateValue>, b: Option<UpdateValue>): Option<UpdateValue> {
    match (a, b) case (Some(x), Some(y)) => Some(ListAppend(x, y)) case _ => None
  }

  function Calculated(a: Option<UpdateValue>, plus: bool, b: Option<UpdateValue>): Option<UpdateValue> {
    match (a, b) case (Some(x), Some(y)) => Some(Arithmetic(x, plus, y)) case _ => None
  }

  function ClauseOp(c: Clause, env: Env): Option<UpdateOp>
    requires GoodClause(c)
  {
    match c
    case SetTo(path, value) => (match RhsValue(value, env) case Some(v) => Some(ValueOp(SET, TokPath(path, env), v)) case None => None)
    case AddTo(path, val) => (match TokValue(val, env) case Some(v) => Some(ValueOp(ADD, TokPath(path, env), v)) case None => None)
    case Removed(path) => Some(RemoveOp(TokPath(path, env)))
    case DeleteFrom(path, val) => (match TokValue(val, env) case Some(v) => Some(ValueOp(DELETE, TokPath(path, env), v)) case None => None)
  }

  function ClauseOps(cs: seq<Clause>, env: Env): Option<seq<UpdateOp>>
    requires forall i :: 0 <= i < |cs| ==> GoodClause(cs[i])
  {
    if cs == [] then Some([])
    else
      match (ClauseOp(cs[0], env), ClauseOps(cs[1..], env))
      case (Some(op), Some(ops)) => Some([op] + ops)
      case _ => None
  }

  function Meaning(ss: seq<Section>, env: Env): Option<seq<UpdateOp>>
    requires GoodSections(ss)
  {
    if ss == [] then Some([])
    else
      match (ClauseOps(ss[0].clauses, env), Meaning(ss[1..], env))
      case (Some(ops), Some(more)) => Some(ops + more)
      case _ => None
  }

  // ---- Tokens ----

  function AtomToks(a: Atom): seq<string> {
    match a
    case Tok(tok) => [tok]
    case IfNotExistsOf(path, default) => ["if_not_exists"] + Enclosed([path] + ([","] + RhsToks(default)))
    case ListAppendOf(first, second) => ["list_append"] + Enclosed(RhsToks(first) + ([","] + RhsToks(second)))
  }

  function RhsToks(r: Rhs): seq<string> {
    match r
    case One(a) => AtomToks(a)
    case Plus(a, b) => AtomToks(a) + (["+"] + AtomToks(b))
    case Minus(a, b) => AtomToks(a) + (["-"] + AtomToks(b))
  }

  function ClauseToks(c: Clause): seq<string> {
    match c
    case SetTo(path, value) => [path] + (["="] + RhsToks(value))
    case AddTo(path, val) => [path] + [val]
    case Removed(path) => [path]
    case DeleteFrom(path, val) => [path] + [val]
  }

  function ClausesToks(cs: seq<Clause>): seq<string> {
    if cs == [] then [] else if |cs| == 1 then ClauseToks(cs[0]) else ClauseToks(cs[0]) + ([","] + ClausesToks(cs[1..]))
  }

  function TextToks(ss: seq<Section>): seq<string> {
    if ss == [] then [] else [ss[0].keyword] + (ClausesToks(ss[0].clauses) + TextToks(ss[1..]))
  }

  lemma SignToken(c: char, b: string)
    requires c == '+' || c == '-' || c == '='
    ensures MemTokens([c] + (" " + b)) == [[c]] + MemTokens(b)
  {
    hide MemTokens;
    var s := [c] + (" " + b);
    SignTurn(c, " " + b);
    FirstToken(s, 1);
    assert s[1..] == " " + b && s[..1] == [c];
    MemTokensBlank(b);
  }

  lemma SignTurn(c: char, rest: string)
    requires c == '+' || c == '-' || c == '='
    ensures MemTurn([c] + rest) == Emit(1)
  {
    hide WordLen, NumberLen;
  }

  /** A sign between two texts. */
  lemma AroundSign(a: string, sign: string, b: string)
    requires sign in {"+", "-", "="}
    ensures MemTokens(a + (" " + (sign + (" " + b)))) == MemTokens(a) + ([sign] + MemTokens(b))
  {
    hide MemTokens;
    assert sign == [sign[0]];
    MemTokensConcat(a, " " + (sign + (" " + b)));
    MemTokensBlank(sign + (" " + b));
    SignToken(sign[0], b);
  }

  lemma CallTokens(name: string, inner: string)
    requires IsIdentifier(name)
    ensures MemTokens(name + ("(" + inner + ")")) == [name] + Enclosed(MemTokens(inner))
  {
    hide MemTokens, Enclosed;
    Phrases.EnclosedIsTokens(inner);
    assert ("(" + inner + ")")[0] == '(';
    MemTokensWord(name, "(" + inner + ")");
  }

  lemma {:induction false} AtomIsTokens(a: Atom)
    requires GoodAtom(a)
    ensures MemTokens(AtomText(a)) == AtomToks(a)
    decreases a
  {
    hide MemTokens, Enclosed;
    match a
    case Tok(tok) =>
      Phrases.TokIsToken(tok);
    case IfNotExistsOf(path, default) =>
      Phrases.TokIsToken(path);
      RhsIsTokens(default);
      MemTokensComma(path, RhsText(default));
      CallTokens("if_not_exists", path + ", " + RhsText(default));
    case ListAppendOf(first, second) =>
      RhsIsTokens(first);
      RhsIsTokens(second);
      MemTokensComma(RhsText(first), RhsText(second));
      CallTokens("list_append", RhsText(first) + ", " + RhsText(second));
  }

  lemma {:induction false} RhsIsTokens(r: Rhs)
    requires GoodRhs(r)
    ensures MemTokens(RhsText(r)) == RhsToks(r)
    decreases r
  {
    hide MemTokens;
    match r
    case One(a) =>
      AtomIsTokens(a);
    case Plus(a, b) =>
      AtomIsTokens(a);
      AtomIsTokens(b);
      AroundSign(AtomText(a), "+", AtomText(b));
    case Minus(a, b) =>
      AtomIsTokens(a);
      AtomIsTokens(b);
      AroundSign(AtomText(a), "-", AtomText(b));
  }

  lemma TwoTokens(path: string, val: string)
    requires Phrases.GoodTok(path) && Phrases.GoodTok(val)
    ensures MemTokens(path + (" " + val)) == [path] + [val]
  {
    hide MemTokens;
    Phrases.TokIsToken(path);
    Phrases.TokIsToken(val);
    MemTokensConcat(path, " " + val);
    MemTokensBlank(val);
  }

  lemma ClauseIsTokens(c: Clause)
    requires GoodClause(c)
    ensures MemTokens(ClauseText(c)) == ClauseToks(c)
  {
    hide MemTokens, Phrases.GoodTok, IsAction;
    match c
    case SetTo(path, value) =>
      Phrases.TokIsToken(path);
      RhsIsTokens(value);
      AroundSign(path, "=", RhsText(value));
    case AddTo(path, val) => TwoTokens(path, val);
    case Removed(path) => Phrases.TokIsToken(path);
    case DeleteFrom(path, val) => TwoTokens(path, val);
  }

  lemma {:induction false} ClausesAreTokens(cs: seq<Clause>)
    requires forall i :: 0 <= i < |cs| ==> GoodClause(cs[i])
    ensures MemTokens(Join(ClauseTexts(cs), ", ")) == ClausesToks(cs)
  {
    hide MemTokens, GoodClause, ClauseText, ClauseToks;
    if cs == [] {
      NothingToScan();
    } else {
      ClauseIsTokens(cs[0]);
      if |cs| > 1 {
        ClausesAreTokens(cs[1..]);
        assert ClauseTexts(cs)[1..] == ClauseTexts(cs[1..]);
        MemTokensComma(ClauseText(cs[0]), Join(ClauseTexts(cs[1..]), ", "));
      }
    }
  }

  lemma SectionIsTokens(s: Section, rest: string)
    requires GoodSection(s) && Boundary(rest)
    ensures MemTokens(SectionText(s) + rest) == [s.keyword] + (ClausesToks(s.clauses) + MemTokens(rest))
  {
    hide MemTokens, GoodClause, IsAction, IsIdentifier, Fits;
    var body := Join(ClauseTexts(s.clauses), ", ");
    ClausesAreTokens(s.clauses);
    MemTokensConcat(SectionText(s), rest);
    MemTokensWord(s.keyword, " " + body);
    MemTokensBlank(body);
    Assoc([s.keyword], ClausesToks(s.clauses), MemTokens(rest));
  }

  lemma {:induction false} TextIsTokens(ss: seq<Section>)
    requires GoodSections(ss)
    ensures MemTokens(Text(ss)) == TextToks(ss)
  {
    hide MemTokens, GoodSection, SectionText, ClausesToks;
    if ss == [] {
      NothingToScan();
    } else if |ss| == 1 {
      SectionIsTokens(ss[0], "");
      NothingToScan();
      assert SectionText(ss[0]) + "" == SectionText(ss[0]);
    } else {
      TextIsTokens(ss[1..]);
      SectionIsTokens(ss[0], " " + Text(ss[1..]));
      MemTokensBlank(Text(ss[1..]));
    }
  }

  // ---- Parsing right-hand sides ----

  function DoneOr<T>(v: Option<T>, rest: seq<string>): Outcome<T> { match v case Some(x) => Done(x, rest) case None => Bad }

  lemma Marks()
    ensures MarkOf("=") == Equals && MarkOf(",") == Mark.Comma && MarkOf("(") == Open && MarkOf(")") == Shut
    ensures MarkOf("+") == Sign(true) && MarkOf("-") == Sign(false)
    ensures MarkOf("if_not_exists") == Ident && MarkOf("list_append") == Ident
    ensures ToLower("if_not_exists") == "if_not_exists" && ToLower("list_append") == "list_append"
  {
    assert ToLower("if_not_exists") == "if_not_exists" by {
      assert forall i :: 0 <= i < |"if_not_exists"| ==> LowerChar("if_not_exists"[i]) == "if_not_exists"[i];
    }
    assert ToLower("list_append") == "list_append" by {
      assert forall i :: 0 <= i < |"list_append"| ==> LowerChar("list_append"[i]) == "list_append"[i];
    }
  }

  lemma Ahead(word: string, rest: seq<string>)
    ensures NextMark([word] + rest) == MarkOf(word) && ([word] + rest)[1..] == rest && Peek([word] + rest) == word && [word] + rest != []
  {
  }

  lemma TokMark(tok: string)
    requires Phrases.GoodTok(tok)
    ensures MarkOf(tok) == (if tok[0] == ':' then Mark.Value else if tok[0] == '#' then Hash else Ident)
  {
  }

  lemma TokParses(tok: string, rest: seq<string>, env: Env)
    requires Phrases.GoodTok(tok) && NextMark(rest) != Open
    ensures ParseSetAtom([tok] + rest, env) == DoneOr(TokValue(tok, env), rest)
    ensures ResolveVal(tok, env) == TokValue(tok, env) && ResolvePath(tok, env) == TokPath(tok, env)
  {
    TokMark(tok);
    Ahead(tok, rest);
    hide MarkOf, SplitDots, Phrases.GoodTok;
  }

  /** A call of one of the two functions. */
  lemma CallAhead(name: string, inner: seq<string>, env: Env)
    requires name == "if_not_exists" || name == "list_append"
    ensures ParseSetAtom([name] + (["("] + inner), env) ==
      if name == "if_not_exists" then IfNotExistsArgs(inner, env) else ListAppendArgs(inner, env)
  {
    Marks();
    Ahead(name, ["("] + inner);
    Ahead("(", inner);
    hide MarkOf, IfNotExistsArgs, ListAppendArgs, ToLower;
  }

  lemma IfNotExistsStep(path: string, ts: seq<string>, v: Option<UpdateValue>, rest: seq<string>, env: Env)
    requires Phrases.GoodTok(path) && ParseSetValue(ts, env) == DoneOr(v, [")"] + rest)
    ensures IfNotExistsArgs([path] + ([","] + ts), env) == DoneOr(IfElse(TokPath(path, env), v), rest)
  {
    Marks();
    Ahead(path, [","] + ts);
    Ahead(",", ts);
    Ahead(")", rest);
    PathResolves(path, env);
    var all := [path] + ([","] + ts);
    assert all[2..] == ts && all[0] == path;
    hide MarkOf, ParseSetValue, ResolvePath, TokPath, Phrases.GoodTok;
  }

  lemma PathResolves(tok: string, env: Env)
    requires Phrases.GoodTok(tok)
    ensures ResolvePath(tok, env) == TokPath(tok, env) && ResolveVal(tok, env) == TokValue(tok, env)
  {
    TokMark(tok);
    hide MarkOf, SplitDots, Phrases.GoodTok;
  }

  lemma ListAppendStep(ts: seq<string>, v: Option<UpdateValue>, us: seq<string>, w: Option<UpdateValue>, rest: seq<string>, env: Env)
    requires ParseSetValue(ts, env) == DoneOr(v, [","] + us) && ParseSetValue(us, env) == DoneOr(w, [")"] + rest)
    ensures ListAppendArgs(ts, env) == DoneOr(Joined(v, w), rest)
  {
    Marks();
    Ahead(",", us);
    Ahead(")", rest);
    hide MarkOf, ParseSetValue;
  }

  lemma SignStep(ts: seq<string>, v: Option<UpdateValue>, plus: bool, us: seq<string>, w: Option<UpdateValue>, rest: seq<string>, env: Env)
    requires ParseSetAtom(ts, env) == DoneOr(v, [if plus then "+" else "-"] + us) && ParseSetAtom(us, env) == DoneOr(w, rest)
    ensures ParseSetValue(ts, env) == DoneOr(Calculated(v, plus, w), rest)
  {
    Marks();
    Ahead(if plus then "+" else "-", us);
    hide MarkOf, ParseSetAtom;
  }

  lemma NoSign(ts: seq<string>, v: Option<UpdateValue>, rest: seq<string>, env: Env)
    requires ParseSetAtom(ts, env) == DoneOr(v, rest) && !NextMark(rest).Sign?
    ensures ParseSetValue(ts, env) == DoneOr(v, rest)
  {
    hide MarkOf, ParseSetAtom;
  }

  lemma EnclosedToks(name: string, inner: seq<string>, rest: seq<string>)
    ensures [name] + Enclosed(inner) + rest == [name] + (["("] + (inner + ([")"] + rest)))
  {
  }

  lemma MarksAhead(rest: seq<string>)
    ensures NextMark([","] + rest) == Mark.Comma && NextMark([")"] + rest) == Shut
    ensures NextMark(["+"] + rest) == Sign(true) && NextMark(["-"] + rest) == Sign(false) && NextMark(["="] + rest) == Equals
  {
    Marks();
    hide MarkOf;
  }

  lemma {:induction false} AtomParses(a: Atom, rest: seq<string>, env: Env)
    requires GoodAtom(a) && NextMark(rest) != Open
    ensures ParseSetAtom(AtomToks(a) + rest, env) == DoneOr(AtomValue(a, env), rest)
    decreases a
  {
    hide ParseSetAtom, ParseSetValue, IfNotExistsArgs, ListAppendArgs, NextMark, Enclosed, TokValue, TokPath, Phrases.GoodTok, RhsToks, RhsValue, GoodRhs;
    match a
    case Tok(tok) =>
      TokParses(tok, rest, env);
    case IfNotExistsOf(path, default) =>
      var tail := RhsToks(default) + ([")"] + rest);
      EnclosedToks("if_not_exists", [path] + ([","] + RhsToks(default)), rest);
      Assoc([","], RhsToks(default), [")"] + rest);
      Assoc([path], [","] + RhsToks(default), [")"] + rest);
      CallAhead("if_not_exists", [path] + ([","] + tail), env);
      MarksAhead(rest);
      RhsParses(default, [")"] + rest, env);
      IfNotExistsStep(path, tail, RhsValue(default, env), rest, env);
    case ListAppendOf(first, second) =>
      var us := RhsToks(second) + ([")"] + rest);
      EnclosedToks("list_append", RhsToks(first) + ([","] + RhsToks(second)), rest);
      Assoc([","], RhsToks(second), [")"] + rest);
      Assoc(RhsToks(first), [","] + RhsToks(second), [")"] + rest);
      CallAhead("list_append", RhsToks(first) + ([","] + us), env);
      MarksAhead(rest);
      MarksAhead(us);
      RhsParses(first, [","] + us, env);
      RhsParses(second, [")"] + rest, env);
      ListAppendStep(RhsToks(first) + ([","] + us), RhsValue(first, env), us, RhsValue(second, env), rest, env);
  }

  lemma {:induction false} RhsParses(r: Rhs, rest: seq<string>, env: Env)
    requires GoodRhs(r) && NextMark(rest) != Open && !NextMark(rest).Sign?
    ensures ParseSetValue(RhsToks(r) + rest, env) == DoneOr(RhsValue(r, env), rest)
    decreases r
  {
    hide ParseSetAtom, ParseSetValue, NextMark, AtomToks, AtomValue, GoodAtom;
    match r
    case One(a) =>
      AtomParses(a, rest, env);
      NoSign(AtomToks(a) + rest, AtomValue(a, env), rest, env);
    case Plus(a, b) =>
      TwoOperands(AtomToks(a), "+", AtomToks(b), rest);
      AtomParses(a, ["+"] + (AtomToks(b) + rest), env);
      AtomParses(b, rest, env);
      SignStep(AtomToks(a) + (["+"] + (AtomToks(b) + rest)), AtomValue(a, env), true, AtomToks(b) + rest, AtomValue(b, env), rest, env);
    case Minus(a, b) =>
      TwoOperands(AtomToks(a), "-", AtomToks(b), rest);
      AtomParses(a, ["-"] + (AtomToks(b) + rest), env);
      AtomParses(b, rest, env);
      SignStep(AtomToks(a) + (["-"] + (AtomToks(b) + rest)), AtomValue(a, env), false, AtomToks(b) + rest, AtomValue(b, env), rest, env);
  }

  lemma TwoOperands(a: seq<string>, sign: string, b: seq<string>, rest: seq<string>)
    requires sign == "+" || sign == "-"
    ensures a + ([sign] + b) + rest == a + ([sign] + (b + rest))
    ensures NextMark([sign] + (b + rest)) != Open
  {
    MarksAhead(b + rest);
  }

  // ---- Parsing clauses ----

  lemma PlainIsNoEnd(tok: string, rest: seq<string>)
    requires PlainTok(tok)
    ensures !ClausesEnd([tok] + rest)
  {
    Ahead(tok, rest);
    TokMark(tok);
    hide MarkOf, Phrases.GoodTok;
  }

  /** Where a clause stops: at the end, at the next section, or at a comma. */
  predicate Stops(rest: seq<string>) { (ClausesEnd(rest) || NextMark(rest) == Mark.Comma) && NextMark(rest) != Open && !NextMark(rest).Sign? }

  lemma SetStep(path: string, r: Rhs, read: seq<UpdateOp>, rest: seq<string>, env: Env)
    requires GoodClause(SetTo(path, r)) && Stops(rest)
    ensures SetClauses(read, ClauseToks(SetTo(path, r)) + rest, env) ==
      match ClauseOp(SetTo(path, r), env) case Some(op) => SetClauses(read + [op], SkipComma(rest), env) case None => Bad
  {
    var ts := RhsToks(r) + rest;
    assert ClauseToks(SetTo(path, r)) + rest == [path] + (["="] + ts);
    var all := [path] + (["="] + ts);
    assert all[2..] == ts && all[1..] == ["="] + ts && all[0] == path;
    PlainIsNoEnd(path, ["="] + ts);
    MarksAhead(ts);
    PathResolves(path, env);
    RhsParses(r, rest, env);
    hide ParseSetValue, NextMark, RhsToks, RhsValue, GoodRhs, ClausesEnd, SkipComma, ResolvePath, TokPath, PlainTok;
  }

  lemma AddDeleteStep(action: Action, path: string, val: string, read: seq<UpdateOp>, rest: seq<string>, env: Env)
    requires PlainTok(path) && PlainTok(val)
    ensures AddDeleteClauses(action, read, [path] + [val] + rest, env) ==
      match TokValue(val, env) case Some(v) => AddDeleteClauses(action, read + [ValueOp(action, TokPath(path, env), v)], SkipComma(rest), env) case None => Bad
  {
    var all := [path] + [val] + rest;
    assert all == [path] + ([val] + rest) && all[1..] == [val] + rest && all[2..] == rest && all[0] == path && all[1] == val;
    PlainIsNoEnd(path, [val] + rest);
    PlainIsNoEnd(val, rest);
    PathResolves(path, env);
    PathResolves(val, env);
    hide ClausesEnd, SkipComma, ResolvePath, ResolveVal, TokPath, TokValue, Phrases.GoodTok;
  }

  lemma RemoveStep(path: string, read: seq<UpdateOp>, rest: seq<string>, env: Env)
    requires PlainTok(path)
    ensures RemoveClauses(read, [path] + rest, env) == RemoveClauses(read + [RemoveOp(TokPath(path, env))], SkipComma(rest), env)
  {
    assert ([path] + rest)[1..] == rest;
    PlainIsNoEnd(path, rest);
    PathResolves(path, env);
    hide ClausesEnd, SkipComma, ResolvePath, TokPath, Phrases.GoodTok;
  }

  function ActionFor(keyword: string): Action
    requires IsAction(keyword)
  {
    var k := ToUpper(keyword);
    if k == "SET" then SET else if k == "ADD" then ADD else if k == "REMOVE" then REMOVE else DELETE
  }

  /** One clause is one step of the loop of its section. */
  lemma ClauseStep(c: Clause, keyword: string, read: seq<UpdateOp>, rest: seq<string>, env: Env)
    requires GoodClause(c) && IsAction(keyword) && Fits(c, keyword) && Stops(rest)
    ensures Clauses(ActionFor(keyword), read, ClauseToks(c) + rest, env) ==
      match ClauseOp(c, env) case Some(op) => Clauses(ActionFor(keyword), read + [op], SkipComma(rest), env) case None => Bad
  {
    hide SetClauses, RemoveClauses, AddDeleteClauses, SkipComma, Stops, TokValue, TokPath, PlainTok, RhsValue, GoodRhs;
    match c
    case SetTo(path, value) => SetStep(path, value, read, rest, env);
    case AddTo(path, val) => AddDeleteStep(ADD, path, val, read, rest, env);
    case Removed(path) => RemoveStep(path, read, rest, env);
    case DeleteFrom(path, val) => AddDeleteStep(DELETE, path, val, read, rest, env);
  }

  lemma CommaAhead(rest: seq<string>)
    ensures Stops([","] + rest) && SkipComma([","] + rest) == rest
  {
    MarksAhead(rest);
    assert ([","] + rest)[1..] == rest;
    hide NextMark;
  }

  lemma EndAhead(rest: seq<string>, read: seq<UpdateOp>, keyword: string, env: Env)
    requires rest == [] || (IsIdentifier(rest[0]) && IsAction(rest[0]))
    requires IsAction(keyword)
    ensures Stops(rest) && SkipComma(rest) == rest && Clauses(ActionFor(keyword), read, rest, env) == Done(read, rest)
  {
  }

  function Onto(read: seq<UpdateOp>, more: Option<seq<UpdateOp>>): Option<seq<UpdateOp>> {
    match more case Some(ops) => Some(read + ops) case None => None
  }

  lemma {:induction false} ClausesParse(cs: seq<Clause>, keyword: string, read: seq<UpdateOp>, rest: seq<string>, env: Env)
    requires cs != [] && IsAction(keyword) && forall i :: 0 <= i < |cs| ==> GoodClause(cs[i]) && Fits(cs[i], keyword)
    requires rest == [] || (IsIdentifier(rest[0]) && IsAction(rest[0]))
    ensures Clauses(ActionFor(keyword), read, ClausesToks(cs) + rest, env) == DoneOr(Onto(read, ClauseOps(cs, env)), rest)
    decreases |cs|
  {
    hide Clauses, ClauseToks, GoodClause, Fits, IsAction, IsIdentifier, ClauseOp, SkipComma, Stops, ActionFor;
    var c := cs[0];
    if |cs| == 1 {
      ClauseStep(c, keyword, read, rest, env) by {
        EndAhead(rest, read, keyword, env);
      }
      if ClauseOp(c, env).Some? {
        var op := ClauseOp(c, env).value;
        EndAhead(rest, read + [op], keyword, env);
        assert ClauseOps(cs[1..], env) == Some([]);
        assert [op] + [] == [op];
      }
    } else {
      var more := ClausesToks(cs[1..]) + rest;
      Assoc(ClauseToks(c), [","] + ClausesToks(cs[1..]), rest);
      Assoc([","], ClausesToks(cs[1..]), rest);
      CommaAhead(more);
      ClauseStep(c, keyword, read, [","] + more, env);
      if ClauseOp(c, env).Some? {
        var op := ClauseOp(c, env).value;
        ClausesParse(cs[1..], keyword, read + [op], rest, env);
        if ClauseOps(cs[1..], env).Some? {
          Assoc(read, [op], ClauseOps(cs[1..], env).value);
        }
      }
    }
  }

  lemma KeywordActs(keyword: string)
    requires IsAction(keyword)
    ensures ActionOf(keyword) == Some(ActionFor(keyword))
  {
  }

  lemma {:induction false} SectionsParse(ss: seq<Section>, read: seq<UpdateOp>, env: Env)
    requires GoodSections(ss)
    ensures Sections(read, TextToks(ss), env) == DoneOr(Onto(read, Meaning(ss, env)), [])
    decreases |ss|
  {
    hide Clauses, ClausesToks, GoodClause, Fits, IsAction, IsIdentifier, ClauseOps, ActionOf, ActionFor;
    if ss == [] {
      assert read + [] == read;
    } else {
      var s := ss[0];
      assert GoodSection(s);
      var rest := TextToks(ss[1..]);
      assert |ss| > 1 ==> GoodSection(ss[1]) && ss[1..][0] == ss[1];
      assert rest == [] || (IsIdentifier(rest[0]) && IsAction(rest[0]));
      KeywordActs(s.keyword);
      ClausesParse(s.clauses, s.keyword, read, rest, env);
      Ahead(s.keyword, ClausesToks(s.clauses) + rest);
      if ClauseOps(s.clauses, env).Some? {
        var ops := ClauseOps(s.clauses, env).value;
        SectionsParse(ss[1..], read + ops, env);
        if Meaning(ss[1..], env).Some? {
          Assoc(read, ops, Meaning(ss[1..], env).value);
        }
      }
    }
  }

  /** memdb reads every such text as the clauses that it says, in their order; an unknown
      placeholder, or an unknown alias where a value is read, is an error. */
  lemma TextMeans(ss: seq<Section>, env: Env)
    requires GoodSections(ss)
    ensures ParseUpdate(Text(ss), env) == match Meaning(ss, env) case Some(ops) => Done(ops, []) case None => Bad
  {
    TextIsTokens(ss);
    SectionsParse(ss, [], env);
    hide Sections, MemTokens, TextToks, Text, GoodSections;
    if Meaning(ss, env).Some? {
      assert [] + Meaning(ss, env).value == Meaning(ss, env).value;
    }
  }

  // ---- From the text to the item ----

  /** One clause alone. */
  function Alone(keyword: string, c: Clause): seq<Section> { [Section(keyword, [c])] }

  lemma AloneText(keyword: string, c: Clause)
    ensures Text(Alone(keyword, c)) == keyword + (" " + ClauseText(c))
  {
    hide ClauseText;
    assert [c][1..] == [];
    assert ClauseTexts([c]) == [ClauseText(c)];
  }

  lemma AloneApplies(keyword: string, c: Clause, env: Env, item: Item)
    requires IsIdentifier(keyword) && IsAction(keyword) && GoodClause(c) && Fits(c, keyword)
    ensures UpdateEval.ApplyUpdate(Text(Alone(keyword, c)), env, item) ==
      match ClauseOp(c, env)
      case Some(op) => if UpdateEval.ValidOps([op]) then UpdateEval.EvalOps([op], item) else Err
      case None => Err
  {
    var ss := Alone(keyword, c);
    TextMeans(ss, env);
    AloneMeans(keyword, c, env);
    AloneText(keyword, c);
    UpdateEval.SectionsValid([], MemTokens(Text(ss)), env);
    hide Text, Meaning, MemTokens, Sections, UpdateEval.EvalOps, ClauseOp, GoodClause, Fits, IsAction, ClauseText, UpdateEval.ValidOp;
  }

  lemma AloneMeans(keyword: string, c: Clause, env: Env)
    requires GoodSection(Section(keyword, [c]))
    ensures GoodSections(Alone(keyword, c)) && GoodClause(c)
    ensures Meaning(Alone(keyword, c), env) == match ClauseOp(c, env) case Some(op) => Some([op]) case None => None
  {
    hide GoodClause, Fits, IsAction, ClauseOp, IsIdentifier;
    var ss := Alone(keyword, c);
    assert ss[0].clauses[0] == c && [c][1..] == [] && ss[1..] == [];
    assert ClauseOps([], env) == Some([]) && Meaning([], env) == Some([]);
    if ClauseOp(c, env).Some? {
      var op := ClauseOp(c, env).value;
      assert [op] + [] == [op];
    }
  }

  /** The texts of counters: `p` names the attribute and `v` the number. */
  lemma CounterTexts(p: string, v: string, path: seq<string>, a: int, b: int, env: Env, item: Item)
    requires PlainTok(p) && PlainTok(v) && TokPath(p, env) == path && TokValue(p, env) == Some(PathValue(path))
    requires TokValue(v, env) == Some(Literal(N(IntToString(b)))) && Resolve(path, item) == Some(N(IntToString(a)))
    requires UpdateLaws.Small(a) && UpdateLaws.Small(b)
    ensures UpdateLaws.Small(a + b) ==>
      && UpdateLaws.Leaves(UpdateEval.ApplyUpdate(SetText(p, "+", v), env, item), path, N(IntToString(a + b)), item)
      && UpdateLaws.Leaves(UpdateEval.ApplyUpdate(AddText(p, v), env, item), path, N(IntToString(a + b)), item)
    ensures UpdateLaws.Small(a - b) ==>
      UpdateLaws.Leaves(UpdateEval.ApplyUpdate(SetText(p, "-", v), env, item), path, N(IntToString(a - b)), item)
  {
    ActionWords();
    CounterClauses(p, v, path, N(IntToString(b)), env);
    CounterStrings(p, v);
    hide *;
    AloneApplies("SET", SetTo(p, Plus(Tok(p), Tok(v))), env, item);
    AloneApplies("SET", SetTo(p, Minus(Tok(p), Tok(v))), env, item);
    AloneApplies("ADD", AddTo(p, v), env, item);
    UpdateLaws.CounterMoves(path, a, b, item);
    if UpdateLaws.Small(a + b) {
      UpdateLaws.AddAdds(path, a, b, item);
    }
    UpdateLaws.ThereIsOpen(path, item);
    CountersAreValid(path, N(IntToString(b)));
  }

  function SetText(p: string, sign: string, v: string): string { "SET " + p + " = " + p + " " + sign + " " + v }

  function AddText(p: string, v: string): string { "ADD " + p + " " + v }

  lemma ActionWords()
    ensures IsIdentifier("SET") && IsAction("SET") && IsIdentifier("ADD") && IsAction("ADD")
    ensures ToUpper("SET") == "SET" && ToUpper("ADD") == "ADD"
  {
    assert ToUpper("SET") == "SET" && ToUpper("ADD") == "ADD";
  }

  lemma CounterClauses(p: string, v: string, path: seq<string>, n: AttributeValue, env: Env)
    requires PlainTok(p) && PlainTok(v) && TokPath(p, env) == path && TokValue(p, env) == Some(PathValue(path)) && TokValue(v, env) == Some(Literal(n))
    ensures GoodClause(SetTo(p, Plus(Tok(p), Tok(v)))) && Fits(SetTo(p, Plus(Tok(p), Tok(v))), "SET")
    ensures GoodClause(SetTo(p, Minus(Tok(p), Tok(v)))) && Fits(SetTo(p, Minus(Tok(p), Tok(v))), "SET")
    ensures GoodClause(AddTo(p, v)) && Fits(AddTo(p, v), "ADD")
    ensures ClauseOp(SetTo(p, Plus(Tok(p), Tok(v))), env) == Some(ValueOp(SET, path, Arithmetic(PathValue(path), true, Literal(n))))
    ensures ClauseOp(SetTo(p, Minus(Tok(p), Tok(v))), env) == Some(ValueOp(SET, path, Arithmetic(PathValue(path), false, Literal(n))))
    ensures ClauseOp(AddTo(p, v), env) == Some(ValueOp(ADD, path, Literal(n)))
  {
    ActionWords();
    hide TokValue, TokPath, Phrases.GoodTok, IsAction, ToUpper;
    assert GoodAtom(Tok(p)) && GoodAtom(Tok(v));
    assert AtomValue(Tok(p), env) == Some(PathValue(path)) && AtomValue(Tok(v), env) == Some(Literal(n));
    assert GoodRhs(Plus(Tok(p), Tok(v))) && GoodRhs(Minus(Tok(p), Tok(v)));
  }

  lemma CountersAreValid(path: seq<string>, n: AttributeValue)
    requires path != []
    ensures UpdateEval.ValidOps([ValueOp(SET, path, Arithmetic(PathValue(path), true, Literal(n)))])
    ensures UpdateEval.ValidOps([ValueOp(SET, path, Arithmetic(PathValue(path), false, Literal(n)))])
    ensures UpdateEval.ValidOps([ValueOp(ADD, path, Literal(n))])
  {
  }

  lemma CounterStrings(p: string, v: string)
    ensures Text(Alone("SET", SetTo(p, Plus(Tok(p), Tok(v))))) == SetText(p, "+", v)
    ensures Text(Alone("SET", SetTo(p, Minus(Tok(p), Tok(v))))) == SetText(p, "-", v)
    ensures Text(Alone("ADD", AddTo(p, v))) == AddText(p, v)
  {
    AloneText("SET", SetTo(p, Plus(Tok(p), Tok(v))));
    AloneText("SET", SetTo(p, Minus(Tok(p), Tok(v))));
    AloneText("ADD", AddTo(p, v));
    hide Text;
    assert RhsText(Plus(Tok(p), Tok(v))) == p + (" " + ("+" + (" " + v)));
    assert RhsText(Minus(Tok(p), Tok(v))) == p + (" " + ("-" + (" " + v)));
    Flat(p, "+", v);
    Flat(p, "-", v);
    assert "ADD" + (" " + (p + (" " + v))) == "ADD " + p + " " + v;
  }

  lemma Flat(p: string, sign: string, v: string)
    ensures "SET" + (" " + (p + (" " + ("=" + (" " + (p + (" " + (sign + (" " + v))))))))) == SetText(p, sign, v)
  {
    var rest := p + (" " + (sign + (" " + v)));
    assert rest == p + " " + sign + " " + v;
    assert "SET" + (" " + (p + (" " + ("=" + (" " + rest))))) == "SET " + p + " = " + rest;
    assert "SET " + p + " = " + rest == "SET " + p + " = " + p + " " + sign + " " + v;
  }
}
