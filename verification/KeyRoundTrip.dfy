/** The key conditions that the client builds are read back as they were meant. */
module KeyRoundTrip {
  import opened Base
  import opened Values
  import opened Ast
  import opened Parser
  import opened Translate
  import opened Condition
  import opened KeyCondition

  /** Characters that nothing in a key condition is recognised by. */
  predicate Plain(c: char) { IsIdentPart(c) || c == '#' || c == ':' }

  predicate Word(w: string) { w != "" && forall i :: 0 <= i < |w| ==> Plain(w[i]) }

  lemma AliasIsWord(name: string)
    requires AllIdentPart(name)
    ensures Word(Alias(name)) && Alias(name)[0] == '#'
  {
  }

  lemma TrimWord(w: string)
    requires w != "" && !IsSpace(w[0]) && !IsSpace(w[|w| - 1])
    ensures Trim(w) == w && Trim(w + " ") == w && Trim(" " + w) == w
  {
    assert (w + " ")[..|w|] == w && (" " + w)[1..] == w;
  }

  // ---- Where things are found ----

  lemma Found(s: string, sub: string, n: nat)
    requires At(s, sub, n) && forall j :: 0 <= j < n ==> !At(s, sub, j)
    ensures IndexOf(s, sub) == Some(n)
  {
  }

  lemma NotFound(s: string, sub: string)
    requires forall j :: 0 <= j <= |s| ==> !At(s, sub, j)
    ensures IndexOf(s, sub) == None && !Includes(s, sub)
  {
  }

  lemma AtChars(s: string, sub: string, j: nat)
    requires At(s, sub, j) && |sub| > 0
    ensures s[j] == sub[0] && (|sub| > 1 ==> s[j + 1] == sub[1])
  {
    assert s[j..j + |sub|][0] == s[j];
    if |sub| > 1 {
      assert s[j..j + |sub|][1] == s[j + 1];
    }
  }

  lemma NotAt(s: string, sub: string, j: nat)
    requires sub != "" && (j < |s| ==> s[j] != sub[0] || (|sub| > 1 && (j + 1 < |s| ==> s[j + 1] != sub[1])))
    ensures !At(s, sub, j)
  {
    if At(s, sub, j) {
      AtChars(s, sub, j);
    }
  }

  lemma UpperIsSpace(s: string)
    ensures forall j :: 0 <= j < |s| && s[j] != ' ' ==> ToUpper(s)[j] != ' '
  {
  }

  lemma AtMiddle(a: string, sub: string, b: string)
    ensures At(a + sub + b, sub, |a|)
  {
    var s := a + sub + b;
    assert s[|a|..|a| + |sub|] == sub;
  }

  /** No AND before n, and one at n. */
  lemma {:induction false} SplitsAt(s: string, n: nat, i: nat)
    requires i <= n < |s| && AndAt(s, n) && s[n] != '(' && s[n] != ')'
    requires forall j :: i <= j < n ==> s[j] != '(' && s[j] != ')' && !AndAt(s, j)
    requires !Includes(ToUpper(Trim(s[..n])), " BETWEEN ")
    ensures SplitPoint(s, i, 0) == Some(n)
    decreases n - i
  {
    hide AndAt, Includes, Trim;
    if i < n {
      SplitsAt(s, n, i + 1);
    }
  }

  lemma {:induction false} SplitsNowhere(s: string, i: nat)
    requires i <= |s| && forall j :: i <= j < |s| ==> s[j] != '(' && s[j] != ')' && !AndAt(s, j)
    ensures SplitPoint(s, i, 0) == None
    decreases |s| - i
  {
    hide AndAt, Includes, Trim;
    if i < |s| {
      SplitsNowhere(s, i + 1);
    }
  }

  lemma AndChars(s: string, i: nat)
    requires AndAt(s, i)
    ensures s[i] == ' ' && (s[i + 1] == 'A' || s[i + 1] == 'a')
  {
    var t := s[i..i + 5];
    assert ToUpper(t)[0] == ' ' && ToUpper(t)[1] == 'A';
    assert UpperChar(t[0]) == ' ' && UpperChar(t[1]) == 'A';
  }

  // ---- The partition part: "#pk = :pk0" ----

  function PkPart(attr: string): string { Alias(attr) + " = :pk0" }

  lemma PkChars(attr: string, rest: string, j: nat)
    requires AllIdentPart(attr) && j < |PkPart(attr)|
    ensures var s, n := PkPart(attr) + rest, |attr| + 1;
      && (j < n ==> Plain(s[j]))
      && (j == n ==> s[j] == ' ' && s[j + 1] == '=')
      && (j == n + 1 ==> s[j] == '=')
      && (j == n + 2 ==> s[j] == ' ' && s[j + 1] == ':')
      && (j > n + 2 ==> Plain(s[j]))
  {
    var s, n := PkPart(attr) + rest, |attr| + 1;
    AliasIsWord(attr);
    assert PkPart(attr)[n..] == " = :pk0";
    if j >= n {
      assert s[j] == " = :pk0"[j - n];
      if j == n || j == n + 2 {
        assert s[j + 1] == " = :pk0"[j + 1 - n];
      }
    } else {
      assert s[j] == Alias(attr)[j];
    }
  }

  lemma PkNoAnd(attr: string, rest: string)
    requires AllIdentPart(attr)
    ensures var s := PkPart(attr) + rest;
      forall j :: 0 <= j < |PkPart(attr)| ==> s[j] != '(' && s[j] != ')' && !AndAt(s, j)
  {
    var s := PkPart(attr) + rest;
    forall j | 0 <= j < |PkPart(attr)|
      ensures s[j] != '(' && s[j] != ')' && !AndAt(s, j)
    {
      PkChars(attr, rest, j);
      if AndAt(s, j) {
        AndChars(s, j);
      }
    }
  }

  lemma PkNoBetween(attr: string)
    requires AllIdentPart(attr)
    ensures !Includes(ToUpper(PkPart(attr)), " BETWEEN ")
  {
    var s, u := PkPart(attr), ToUpper(PkPart(attr));
    assert s + "" == s;
    UpperIsSpace(s);
    forall j | 0 <= j <= |u|
      ensures !At(u, " BETWEEN ", j)
    {
      if j < |u| {
        PkChars(attr, "", j);
      }
      NotAt(u, " BETWEEN ", j);
    }
    NotFound(u, " BETWEEN ");
  }

  lemma PkTrimmed(attr: string)
    requires AllIdentPart(attr)
    ensures Trim(PkPart(attr)) == PkPart(attr)
  {
    var s := PkPart(attr);
    assert s + "" == s;
    PkChars(attr, "", 0);
    PkChars(attr, "", |s| - 1);
    TrimWord(s);
  }

  /** A part that starts with an alias is not a call. */
  lemma AliasIsNoCall(part: string)
    requires part != "" && part[0] == '#'
    ensures !IsBeginsWith(part)
  {
    assert ToLower(part)[0] == '#';
  }

  lemma ReadsPk(attr: string, val: AttributeValue, st: State, env: Env, range: Option<string>)
    requires AllIdentPart(attr) && Lookup(env.names, Alias(attr)) == Some(attr) && Lookup(env.values, ":pk0") == Some(val)
    ensures ParsePart(PkPart(attr), st, env, attr, range) == Some(st.(pk := Some(val)))
  {
    var s, a := PkPart(attr), Alias(attr);
    AliasIsWord(attr);
    AliasIsNoCall(s);
    PkNoBetween(attr);
    PkSimple(attr, val, env);
    hide ParseSimple, IsBeginsWith, Includes;
  }

  lemma PkSimple(attr: string, val: AttributeValue, env: Env)
    requires AllIdentPart(attr) && Lookup(env.names, Alias(attr)) == Some(attr) && Lookup(env.values, ":pk0") == Some(val)
    ensures ParseSimple(PkPart(attr), OPS, env) == Some(Comparison(attr, EQ, val))
  {
    SimpleIsRead(Alias(attr), EQ, ":pk0", env);
    AliasIsWord(attr);
    hide ParseSimple;
    assert PkPart(attr) == Alias(attr) + " " + "=" + " " + ":pk0";
  }

  // ---- Comparisons: "#attr op :value" ----

  predicate IsSign(c: char) { c == '<' || c == '>' || c == '=' }

  function CompareText(a: string, op: CompareOp, v: string): string { a + " " + OpSymbol(op) + " " + v }

  lemma CompareChars(a: string, op: CompareOp, v: string, j: nat)
    requires Word(a) && Word(v) && j < |CompareText(a, op, v)|
    ensures var s, n, m := CompareText(a, op, v), |a|, |OpSymbol(op)|;
      && 1 <= m <= 2
      && (j < n ==> Plain(s[j]))
      && (j == n ==> s[j] == ' ')
      && (n < j <= n + m ==> s[j] == OpSymbol(op)[j - n - 1] && IsSign(s[j]))
      && (j == n + m + 1 ==> s[j] == ' ')
      && (j > n + m + 1 ==> Plain(s[j]))
      && (j == n + m + 2 ==> s[j] == v[0])
  {
    var s, n, m := CompareText(a, op, v), |a|, |OpSymbol(op)|;
    if j < n {
      assert s[j] == a[j];
    } else if n < j <= n + m {
      assert s[j] == OpSymbol(op)[j - n - 1];
    } else if j > n + m + 1 {
      assert s[j] == v[j - n - m - 2];
    }
  }

  /** An operator that is looked for earlier is not there. */
  lemma OtherSymbol(a: string, op: CompareOp, v: string, other: CompareOp)
    requires Word(a) && Word(v) && other != op
    requires other == LE || other == GE || other == NE || (other == EQ && (op == LT || op == GT)) || (other == LT && op == GT)
    ensures IndexOf(CompareText(a, op, v), OpSymbol(other)) == None
  {
    var s, o := CompareText(a, op, v), OpSymbol(other);
    forall j | 0 <= j <= |s|
      ensures !At(s, o, j)
    {
      if j < |s| {
        CompareChars(a, op, v, j);
      }
      if j + 1 < |s| {
        CompareChars(a, op, v, j + 1);
      }
      hide CompareText;
      NotAt(s, o, j);
    }
    NotFound(s, o);
  }

  lemma SymbolFound(a: string, op: CompareOp, v: string)
    requires Word(a) && Word(v)
    ensures IndexOf(CompareText(a, op, v), OpSymbol(op)) == Some(|a| + 1)
  {
    var s, sym := CompareText(a, op, v), OpSymbol(op);
    AtMiddle(a + " ", sym, " " + v);
    assert s == (a + " ") + sym + (" " + v);
    forall j | 0 <= j < |a| + 1
      ensures !At(s, sym, j)
    {
      CompareChars(a, op, v, j);
      NotAt(s, sym, j);
    }
    Found(s, sym, |a| + 1);
  }

  lemma SimpleIsRead(a: string, op: CompareOp, v: string, env: Env)
    requires Word(a) && Word(v) && v[0] == ':' && v in env.values
    ensures ParseSimple(CompareText(a, op, v), OPS, env) == Some(Comparison(ResolveName(a, env), op, env.values[v]))
  {
    SimpleHere(a, op, v, env);
    hide ParseSimple;
    var s := CompareText(a, op, v);
    assert OPS[1..] == [GE, NE, EQ, LT, GT];
    SkipOp(s, OPS, env);
    SkipOp(s, [GE, NE, EQ, LT, GT], env);
    SkipOp(s, [NE, EQ, LT, GT], env);
    SkipOp(s, [EQ, LT, GT], env);
    SkipOp(s, [LT, GT], env);
    assert [GE, NE, EQ, LT, GT][1..] == [NE, EQ, LT, GT] && [NE, EQ, LT, GT][1..] == [EQ, LT, GT]
        && [EQ, LT, GT][1..] == [LT, GT] && [LT, GT][1..] == [GT];
    EarlierMissing(a, op, v);
  }

  lemma SkipOp(s: string, ops: seq<CompareOp>, env: Env)
    requires ops != []
    ensures IndexOf(s, OpSymbol(ops[0])) == None ==> ParseSimple(s, ops, env) == ParseSimple(s, ops[1..], env)
  {
  }

  /** None of the operators before op in OPS is found. */
  lemma EarlierMissing(a: string, op: CompareOp, v: string)
    requires Word(a) && Word(v)
    ensures var s := CompareText(a, op, v);
      && (op != LE ==> IndexOf(s, OpSymbol(LE)) == None)
      && (op != LE && op != GE ==> IndexOf(s, OpSymbol(GE)) == None)
      && (op != LE && op != GE && op != NE ==> IndexOf(s, OpSymbol(NE)) == None)
      && (op == LT || op == GT ==> IndexOf(s, OpSymbol(EQ)) == None)
      && (op == GT ==> IndexOf(s, OpSymbol(LT)) == None)
  {
    hide CompareText, IndexOf;
    if op != LE {
      OtherSymbol(a, op, v, LE);
    }
    if op != LE && op != GE {
      OtherSymbol(a, op, v, GE);
    }
    if op != LE && op != GE && op != NE {
      OtherSymbol(a, op, v, NE);
    }
    if op == LT || op == GT {
      OtherSymbol(a, op, v, EQ);
    }
    if op == GT {
      OtherSymbol(a, op, v, LT);
    }
  }

  /** With op first in the list. */
  lemma SimpleHere(a: string, op: CompareOp, v: string, env: Env)
    requires Word(a) && Word(v) && v[0] == ':' && v in env.values
    ensures forall ops :: ops != [] && ops[0] == op ==>
      ParseSimple(CompareText(a, op, v), ops, env) == Some(Comparison(ResolveName(a, env), op, env.values[v]))
  {
    var s, n, m := CompareText(a, op, v), |a|, |OpSymbol(op)|;
    SymbolFound(a, op, v);
    assert s[..n + 1] == a + " " && s[n + 1 + m..] == " " + v;
    TrimWord(a);
    TrimWord(v);
    hide IndexOf, Trim, CompareText;
  }

  lemma CompareNoBetween(a: string, op: CompareOp, v: string)
    requires Word(a) && Word(v) && v[0] == ':'
    ensures !Includes(ToUpper(CompareText(a, op, v)), " BETWEEN ")
  {
    var s := CompareText(a, op, v);
    var u := ToUpper(s);
    UpperIsSpace(s);
    forall j | 0 <= j <= |u|
      ensures !At(u, " BETWEEN ", j)
    {
      if j < |s| {
        CompareChars(a, op, v, j);
      }
      if j + 1 < |s| {
        CompareChars(a, op, v, j + 1);
      }
      hide CompareText;
      NotAt(u, " BETWEEN ", j);
    }
    NotFound(u, " BETWEEN ");
  }

  // ---- The sort part ----

  function SortOf(sort: SortMethod): Option<SortCond> {
    match sort
    case NoSort => None
    case SortCompare(op, attr, val) => Some(SortCond(Comparing(op), attr, val, NULL))
    case SortBeginsWith(attr, prefix) => Some(SortCond(BeginsWith, attr, prefix, NULL))
    case SortBetween(attr, low, high) => Some(SortCond(Between, attr, low, high))
  }

  ghost predicate SortBinds(sort: SortMethod, env: Env) {
    !sort.NoSort? ==>
      && AllIdentPart(sort.attr)
      && Lookup(env.names, Alias(sort.attr)) == Some(sort.attr)
      && forall k :: k in SortValues(sort) ==> Lookup(env.values, k) == Some(SortValues(sort)[k])
  }

  lemma ReadsCompare(op: CompareOp, attr: string, val: AttributeValue, st: State, env: Env, pkName: string, range: Option<string>)
    requires SortBinds(SortCompare(op, attr, val), env) && attr != pkName
    ensures ParsePart(SortText(SortCompare(op, attr, val)), st, env, pkName, range)
         == (if range == Some(attr) then Some(st.(sk := SortOf(SortCompare(op, attr, val)))) else None)
  {
    var s, a := SortText(SortCompare(op, attr, val)), Alias(attr);
    AliasIsWord(attr);
    assert ":sk0" in SortValues(SortCompare(op, attr, val));
    assert s == CompareText(a, op, ":sk0") by {
      assert " :sk0" == " " + ":sk0";
      Assoc(a + " " + OpSymbol(op), " ", ":sk0");
    }
    AliasIsNoCall(s);
    CompareNoBetween(a, op, ":sk0");
    SimpleIsRead(a, op, ":sk0", env);
    hide ParseSimple, IsBeginsWith, Includes, CompareText;
  }

  lemma BetweenFound(a: string)
    requires Word(a)
    ensures var u := ToUpper(a + " BETWEEN :sk0 AND :sk1");
      IndexOf(u, " BETWEEN ") == Some(|a|) && Includes(u, " BETWEEN ")
  {
    var s, tail := a + " BETWEEN :sk0 AND :sk1", " BETWEEN :sk0 AND :sk1";
    var u := ToUpper(s);
    assert s[|a|..] == tail;
    assert u[|a|..|a| + 9] == " BETWEEN " by {
      forall i | 0 <= i < 9
        ensures u[|a| + i] == " BETWEEN "[i]
      {
        assert s[|a| + i] == tail[i] == " BETWEEN "[i];
      }
    }
    UpperIsSpace(s);
    forall j | 0 <= j < |a|
      ensures !At(u, " BETWEEN ", j)
    {
      assert s[j] == a[j] && Plain(a[j]) && s[j] != ' ';
      NotAt(u, " BETWEEN ", j);
    }
    Found(u, " BETWEEN ", |a|);
  }

  lemma BoundsFound()
    ensures var rest := ":sk0 AND :sk1";
      IndexOf(ToUpper(rest), " AND ") == Some(4) && Trim(rest[..4]) == ":sk0" && Trim(rest[9..]) == ":sk1"
  {
    var rest := ":sk0 AND :sk1";
    var u := ToUpper(rest);
    assert u[4..9] == " AND " by {
      assert rest[4] == ' ' && rest[5] == 'A' && rest[6] == 'N' && rest[7] == 'D' && rest[8] == ' ';
    }
    UpperIsSpace(rest);
    forall j | 0 <= j < 4
      ensures !At(u, " AND ", j)
    {
      NotAt(u, " AND ", j);
    }
    Found(u, " AND ", 4);
    assert rest[..4] == ":sk0" && rest[9..] == ":sk1";
    TrimWord(":sk0");
    TrimWord(":sk1");
  }

  lemma BetweenIsRead(a: string, low: AttributeValue, high: AttributeValue, env: Env)
    requires Word(a) && Lookup(env.values, ":sk0") == Some(low) && Lookup(env.values, ":sk1") == Some(high)
    ensures ParseBetween(a + " BETWEEN :sk0 AND :sk1", env) == Some(SortCond(Between, ResolveName(a, env), low, high))
  {
    var s, rest := a + " BETWEEN :sk0 AND :sk1", ":sk0 AND :sk1";
    BetweenFound(a);
    BoundsFound();
    TrimWord(a);
    BetweenParts(a);
    hide IndexOf, Includes, Trim, Word;
    assert ResolveValue(":sk0", env) == Some(low) && ResolveValue(":sk1", env) == Some(high);
  }

  lemma BetweenParts(a: string)
    ensures var s := a + " BETWEEN :sk0 AND :sk1"; s[..|a|] == a && s[|a| + 9..] == ":sk0 AND :sk1"
  {
    var tail, rest := " BETWEEN :sk0 AND :sk1", ":sk0 AND :sk1";
    var s := a + tail;
    assert tail[9..] == rest;
    assert s[|a| + 9..] == tail[9..];
  }

  lemma ReadsBetween(attr: string, low: AttributeValue, high: AttributeValue, st: State, env: Env, pkName: string, range: Option<string>)
    requires SortBinds(SortBetween(attr, low, high), env)
    ensures ParsePart(SortText(SortBetween(attr, low, high)), st, env, pkName, range)
         == Some(st.(sk := SortOf(SortBetween(attr, low, high))))
  {
    var a := Alias(attr);
    var s := SortText(SortBetween(attr, low, high));
    assert s == a + " BETWEEN :sk0 AND :sk1";
    BetweenBinds(attr, low, high, env);
    AliasIsWord(attr);
    AliasIsNoCall(s);
    BetweenFound(a);
    hide IndexOf, Includes, Trim, IsBeginsWith, SortText, ParseSimple, SortBinds, Word, ParseBetween;
    BetweenIsRead(a, low, high, env);
  }

  lemma BetweenBinds(attr: string, low: AttributeValue, high: AttributeValue, env: Env)
    requires SortBinds(SortBetween(attr, low, high), env)
    ensures Lookup(env.values, ":sk0") == Some(low) && Lookup(env.values, ":sk1") == Some(high) && AllIdentPart(attr)
    ensures ResolveName(Alias(attr), env) == attr
  {
    var vals := SortValues(SortBetween(attr, low, high));
    assert ":sk0"[3] != ":sk1"[3];
    assert ":sk0" in vals && ":sk1" in vals && vals[":sk0"] == low && vals[":sk1"] == high;
  }

  function CallText(a: string): string { "begins_with(" + a + ", :sk0)" }

  lemma CallChars(a: string)
    requires Word(a)
    ensures var s := CallText(a);
      && IndexOf(s, "(") == Some(11)
      && LastShut(s) == Some(|s| - 1)
      && |s| == |a| + 19
      && s[12..|s| - 1] == a + ", :sk0"
  {
    var s, head := CallText(a), "begins_with";
    assert s == head + "(" + (a + ", :sk0)");
    AtMiddle(head, "(", a + ", :sk0)");
    forall j | 0 <= j < 11
      ensures !At(s, "(", j)
    {
      assert s[j] == head[j];
      NotAt(s, "(", j);
    }
    Found(s, "(", 11);
    assert s[12..] == a + ", :sk0)";
    assert s[12..|s| - 1] == a + ", :sk0";
  }

  lemma CommaFound(a: string)
    requires Word(a)
    ensures var inner := a + ", :sk0";
      IndexOf(inner, ",") == Some(|a|) && Trim(inner[..|a|]) == a && Trim(inner[|a| + 1..]) == ":sk0"
  {
    var inner := a + ", :sk0";
    assert inner == a + "," + " :sk0";
    AtMiddle(a, ",", " :sk0");
    forall j | 0 <= j < |a|
      ensures !At(inner, ",", j)
    {
      assert inner[j] == a[j];
      NotAt(inner, ",", j);
    }
    Found(inner, ",", |a|);
    assert inner[..|a|] == a && inner[|a| + 1..] == " :sk0" && " :sk0" == " " + ":sk0";
    TrimWord(a);
    TrimWord(":sk0");
  }

  lemma CallIsCall(a: string)
    ensures IsBeginsWith(CallText(a))
  {
    var s, head := CallText(a), "begins_with(";
    assert forall i :: 0 <= i < 12 ==> s[i] == head[i];
    assert ToLower(s)[..12] == head by {
      assert ToLower(head) == head by {
        assert forall i :: 0 <= i < 12 ==> LowerChar(head[i]) == head[i];
      }
    }
  }

  lemma ReadsBeginsWith(attr: string, prefix: AttributeValue, st: State, env: Env, pkName: string, range: Option<string>)
    requires SortBinds(SortBeginsWith(attr, prefix), env)
    ensures ParsePart(SortText(SortBeginsWith(attr, prefix)), st, env, pkName, range)
         == Some(st.(sk := SortOf(SortBeginsWith(attr, prefix))))
  {
    var a := Alias(attr);
    assert SortText(SortBeginsWith(attr, prefix)) == CallText(a);
    AliasIsWord(attr);
    CallIsCall(a);
    CallChars(a);
    CommaFound(a);
    assert ":sk0" in SortValues(SortBeginsWith(attr, prefix));
    hide IndexOf, Includes, Trim, IsBeginsWith, CallText, ParseSimple, LastShut, SortText;
    assert ResolveValue(":sk0", env) == Some(prefix) && ResolveName(a, env) == attr;
    assert ParseBeginsWith(CallText(a), env) == Some(SortCond(BeginsWith, attr, prefix, NULL));
  }

  /** BETWEEN and begins_with are accepted on any attribute, a comparison only on the
      sort key. */
  predicate Fits(sort: SortMethod, range: Option<string>) { sort.SortCompare? ==> range == Some(sort.attr) }

  lemma ReadsSort(sort: SortMethod, st: State, env: Env, pkName: string, range: Option<string>)
    requires !sort.NoSort? && SortBinds(sort, env) && sort.attr != pkName
    ensures ParsePart(SortText(sort), st, env, pkName, range) == (if Fits(sort, range) then Some(st.(sk := SortOf(sort))) else None)
  {
    hide ParsePart, SortText, SortBinds;
    match sort
    case SortCompare(op, attr, val) => ReadsCompare(op, attr, val, st, env, pkName, range);
    case SortBeginsWith(attr, prefix) => ReadsBeginsWith(attr, prefix, st, env, pkName, range);
    case SortBetween(attr, low, high) => ReadsBetween(attr, low, high, st, env, pkName, range);
    case NoSort =>
  }

  lemma SortTrimmed(sort: SortMethod)
    requires !sort.NoSort? && AllIdentPart(sort.attr)
    ensures SortText(sort) != "" && Trim(SortText(sort)) == SortText(sort)
  {
    var s := SortText(sort);
    AliasIsWord(sort.attr);
    match sort
    case SortCompare(op, attr, _) =>
      assert s[|s| - 1] == " :sk0"[4];
      TrimWord(s);
    case SortBeginsWith(attr, _) =>
      assert s[|s| - 1] == ", :sk0)"[6];
      TrimWord(s);
    case SortBetween(attr, _, _) =>
      assert s[|s| - 1] == " BETWEEN :sk0 AND :sk1"[21];
      TrimWord(s);
    case NoSort =>
  }

  // ---- The whole condition ----

  lemma SplitWithout(attr: string)
    requires AllIdentPart(attr)
    ensures SplitOnAND(PkPart(attr)) == [PkPart(attr)]
  {
    var s := PkPart(attr);
    PkNoAnd(attr, "");
    assert s + "" == s;
    SplitsNowhere(s, 0);
  }

  lemma SplitWith(attr: string, rest: string)
    requires AllIdentPart(attr) && rest != "" && Trim(rest) == rest
    ensures SplitOnAND(PkPart(attr) + " AND " + rest) == [PkPart(attr), rest]
  {
    var left := PkPart(attr);
    var s, n := left + " AND " + rest, |left|;
    PkNoAnd(attr, " AND " + rest);
    PkTrimmed(attr);
    PkNoBetween(attr);
    assert s == left + (" AND " + rest);
    assert s[..n] == left && s[n + 5..] == rest && s[n..n + 5] == " AND ";
    AndIsAnd();
    hide PkPart, Trim, Includes;
    SplitsAt(s, n, 0);
  }

  lemma AndIsAnd()
    ensures ToUpper(" AND ") == " AND "
  {
    var s := " AND ";
    assert forall i :: 0 <= i < 5 ==> UpperChar(s[i]) == s[i];
  }

  ghost predicate KeyBinds(key: KeyCond, env: Env) {
    && AllIdentPart(key.attr)
    && Lookup(env.names, Alias(key.attr)) == Some(key.attr)
    && Lookup(env.values, ":pk0") == Some(key.val)
    && SortBinds(key.sort, env)
  }

  /** parseKeyCondition gives back the partition value, the operator and the bounds;
      a comparison on another attribute than the sort key is an error. */
  lemma KeyConditionRoundTrip(key: KeyCond, env: Env, range: Option<string>)
    requires KeyBinds(key, env) && (key.sort.NoSort? || key.sort.attr != key.attr)
    ensures ParseKeyCondition(KeyText(key), env, key.attr, range)
         == if Fits(key.sort, range) then Ok(KeyParts(key.val, SortOf(key.sort))) else Err
  {
    hide ParsePart, SortText, SplitOnAND, Trim, PkPart, Lookup, SortBinds, AllIdentPart, SortOf, Fits;
    var pk, st := PkPart(key.attr), State(None, None);
    SortNamed(key.sort, env);
    assert pk == Alias(key.attr) + " = :pk0" by { PkText(key.attr); }
    PkTrimmed(key.attr);
    ReadsPk(key.attr, key.val, st, env, range);
    if key.sort.NoSort? {
      NoSortOf(key.sort, range);
      SplitWithout(key.attr);
      assert pk + "" == pk;
      OnePart(pk, st, env, key.attr, range);
    } else {
      var rest := SortText(key.sort);
      SortTrimmed(key.sort);
      SplitWith(key.attr, rest);
      Assoc(pk, " AND ", rest);
      ReadsSort(key.sort, st.(pk := Some(key.val)), env, key.attr, range);
      OnePart(rest, st.(pk := Some(key.val)), env, key.attr, range);
      assert [pk, rest][1..] == [rest];
    }
  }

  lemma OnePart(part: string, st: State, env: Env, pkName: string, range: Option<string>)
    ensures ParseParts([part], st, env, pkName, range) == ParsePart(Trim(part), st, env, pkName, range)
  {
    hide ParsePart, Trim;
    assert [part][1..] == [];
  }

  lemma NoSortOf(sort: SortMethod, range: Option<string>)
    requires sort.NoSort?
    ensures SortOf(sort) == None && Fits(sort, range)
  {
  }

  lemma SortNamed(sort: SortMethod, env: Env)
    requires SortBinds(sort, env)
    ensures !sort.NoSort? ==> AllIdentPart(sort.attr)
  {
  }

  lemma PkText(attr: string)
    ensures PkPart(attr) == Alias(attr) + " = :pk0"
  {
  }

  /** The placeholders of a filter made by buildCondition. */
  ghost predicate FilterPlaceholders(c: ConditionExpr) {
    WellNamed(c.names) && forall k :: k in c.values ==> exists i: nat :: k == Placeholder(i)
  }

  /** They never get in the way of the key condition's own, and neither do those of a
      projection, so a request as buildQueryRequest makes it is read back. */
  lemma RequestBindsKey(key: KeyCond, filter: Option<ConditionExpr>, projection: map<string, string>, q: QueryText)
    requires AllIdentPart(key.attr) && (key.sort.NoSort? || AllIdentPart(key.sort.attr))
    requires WellNamed(projection) && (filter.Some? ==> FilterPlaceholders(filter.value))
    requires q.names == map[Alias(key.attr) := key.attr] + SortNames(key.sort)
                      + (match filter case Some(c) => c.names case None => map[]) + projection
    requires q.values == map[":pk0" := key.val] + SortValues(key.sort) + (match filter case Some(c) => c.values case None => map[])
    ensures KeyBinds(key, Env(q.names, q.values))
  {
    var fnames := match filter case Some(c) => c.names case None => map[];
    var fvalues := match filter case Some(c) => c.values case None => map[];
    if filter.Some? {
      FilterKeepsOut(filter.value);
    }
    KeyNamesKept(key, fnames, projection);
    KeyValuesKept(key, fvalues);
    hide SortValues, SortNames, WellNamed, Alias, AllIdentPart, FilterPlaceholders;
  }

  lemma FilterKeepsOut(c: ConditionExpr)
    requires FilterPlaceholders(c)
    ensures WellNamed(c.names) && ":pk0" !in c.values && ":sk0" !in c.values && ":sk1" !in c.values
  {
    forall k | k in c.values
      ensures k != ":pk0" && k != ":sk0" && k != ":sk1"
    {
      var i: nat :| k == Placeholder(i);
      assert k[1] == 'v' && ":pk0"[1] == 'p' && ":sk0"[1] == 's' && ":sk1"[1] == 's';
    }
  }

  lemma KeyValuesKept(key: KeyCond, fvalues: map<string, AttributeValue>)
    requires ":pk0" !in fvalues && ":sk0" !in fvalues && ":sk1" !in fvalues
    ensures var values := map[":pk0" := key.val] + SortValues(key.sort) + fvalues;
      Lookup(values, ":pk0") == Some(key.val) && forall k :: k in SortValues(key.sort) ==> Lookup(values, k) == Some(SortValues(key.sort)[k])
  {
    assert ":pk0"[1] == 'p' && ":sk0"[1] == 's' && ":sk1"[1] == 's';
    assert SortValues(key.sort).Keys <= {":sk0", ":sk1"};
  }

  lemma KeyNamesKept(key: KeyCond, fnames: map<string, string>, projection: map<string, string>)
    requires WellNamed(fnames) && WellNamed(projection)
    ensures var names := map[Alias(key.attr) := key.attr] + SortNames(key.sort) + fnames + projection;
      Lookup(names, Alias(key.attr)) == Some(key.attr) && (!key.sort.NoSort? ==> Lookup(names, Alias(key.sort.attr)) == Some(key.sort.attr))
  {
    var pk := map[Alias(key.attr) := key.attr];
    var own := pk + SortNames(key.sort);
    assert WellNamed(SortNames(key.sort));
    NamesKeep(pk, SortNames(key.sort), key.attr);
    NamesKeep(own, fnames, key.attr);
    NamesKeep(own + fnames, projection, key.attr);
    if !key.sort.NoSort? {
      NamesKeep(own, fnames, key.sort.attr);
      NamesKeep(own + fnames, projection, key.sort.attr);
    }
  }

  lemma NamesKeep(names: map<string, string>, more: map<string, string>, name: string)
    requires WellNamed(more) && Lookup(names, Alias(name)) == Some(name)
    ensures Lookup(names + more, Alias(name)) == Some(name)
  {
    if Alias(name) in more {
      assert Alias(more[Alias(name)])[1..] == more[Alias(name)] && Alias(name)[1..] == name;
    }
  }
}
