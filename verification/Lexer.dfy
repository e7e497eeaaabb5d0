/** The three tokenizers: memdb/expression.go, internal/expr/builder.go and
    condition.go. Each loop is specified by a function that reads one token off
    the front of the remaining text. */
module Lexer {
  import opened Base

  /** What one turn of a tokenizer loop does: move on by `len` characters, and
      append them as a token or skip them. */
  datatype Turn = Skip(len: nat) | Emit(len: nat)

  predicate IsBlank(c: char) { c == ' ' || c == '\t' || c == '\n' || c == '\r' }

  /** "<>", "<=" and ">=". */
  predicate IsTwoCharOp(c: char, d: char) { (c == '<' && (d == '>' || d == '=')) || (c == '>' && d == '=') }

  predicate InWord(c: char, dotted: bool) { IsIdentPart(c) || (dotted && c == '.') }

  predicate InNumber(c: char) { IsDigit(c) || c == '.' }

  /** Length of the longest prefix of identifier characters (and dots). */
  function WordLen(s: string, dotted: bool): (n: nat)
    ensures n <= |s|
    ensures forall i :: 0 <= i < n ==> InWord(s[i], dotted)
    ensures n < |s| ==> !InWord(s[n], dotted)
  {
    if s != "" && InWord(s[0], dotted) then 1 + WordLen(s[1..], dotted) else 0
  }

  function NumberLen(s: string): (n: nat)
    ensures n <= |s|
    ensures forall i :: 0 <= i < n ==> InNumber(s[i])
    ensures n < |s| ==> !InNumber(s[n])
  {
    if s != "" && InNumber(s[0]) then 1 + NumberLen(s[1..]) else 0
  }

  // ---- memdb/expression.go ----

  predicate IsMemPunct(c: char) {
    c == '(' || c == ')' || c == ',' || c == '=' || c == '<' || c == '>' || c == '+' || c == '-'
  }

  function MemTurn(s: string): (t: Turn)
    requires s != ""
    ensures 0 < t.len <= |s|
  {
    var ch := s[0];
    if IsBlank(ch) then Skip(1)
    else if |s| >= 2 && IsTwoCharOp(ch, s[1]) then Emit(2)
    else if IsMemPunct(ch) then Emit(1)
    else if ch == ':' || ch == '#' then Emit(1 + WordLen(s[1..], false))
    else if IsIdentStart(ch) then Emit(1 + WordLen(s[1..], true))
    else if IsDigit(ch) then Emit(1 + NumberLen(s[1..]))
    else Skip(1)
  }

  function Tokens(s: string, t: Turn): seq<string>
    requires t.len <= |s|
  {
    if t.Skip? then [] else [s[..t.len]]
  }

  /** memdb's tokens of s. */
  function MemTokens(s: string): seq<string>
  {
    if s == "" then [] else var t := MemTurn(s); Tokens(s, t) + MemTokens(s[t.len..])
  }

  /** The end of the run of characters of s from `from` that satisfy InWord. */
  method SkipWord(s: string, from: nat, dotted: bool) returns (i: nat)
    requires from <= |s|
    ensures i == from + WordLen(s[from..], dotted)
  {
    i := from;
    while i < |s| && InWord(s[i], dotted)
      invariant from <= i <= |s|
      invariant from + WordLen(s[from..], dotted) == i + WordLen(s[i..], dotted)
    {
      assert s[i..][1..] == s[i + 1..];
      i := i + 1;
    }
  }

  method SkipNumber(s: string, from: nat) returns (i: nat)
    requires from <= |s|
    ensures i == from + NumberLen(s[from..])
  {
    i := from;
    while i < |s| && InNumber(s[i])
      invariant from <= i <= |s|
      invariant from + NumberLen(s[from..]) == i + NumberLen(s[i..])
    {
      assert s[i..][1..] == s[i + 1..];
      i := i + 1;
    }
  }

  /** One turn of the loop of tokenizeExpr, from position `start`. */
  method ScanMem(s: string, start: nat) returns (tokens: seq<string>, i: nat)
    requires start < |s|
    ensures start < i <= |s|
    ensures var t := MemTurn(s[start..]); i == start + t.len && tokens == Tokens(s[start..], t)
  {
    i, tokens := start, [];
    var ch := s[i];
    ghost var rest := s[start..];
    assert rest[1..] == s[start + 1..];
    if IsBlank(ch) {
      i := i + 1;
    } else if i + 1 < |s| && IsTwoCharOp(ch, s[i + 1]) {
      i := i + 2;
      tokens := [s[start..i]];
    } else if IsMemPunct(ch) {
      i := i + 1;
      tokens := [s[start..i]];
    } else if ch == ':' || ch == '#' || IsIdentStart(ch) {
      i := SkipWord(s, i + 1, ch != ':' && ch != '#');
      tokens := [s[start..i]];
    } else if IsDigit(ch) {
      i := SkipNumber(s, i + 1);
      tokens := [s[start..i]];
    } else {
      i := i + 1;
    }
    assert s[start..i] == rest[..i - start];
  }

  lemma NothingToScan()
    ensures MemTokens("") == [] && BuilderTokens("") == []
  {
  }

  lemma MemTokensStep(s: string, i: nat)
    requires i < |s|
    ensures var t := MemTurn(s[i..]); MemTokens(s[i..]) == Tokens(s[i..], t) + MemTokens(s[i + t.len..])
  {
    var t := MemTurn(s[i..]);
    assert s[i..][t.len..] == s[i + t.len..];
  }

  method TokenizeMem(s: string) returns (tokens: seq<string>)
    ensures tokens == MemTokens(s)
  {
    hide *;
    tokens := [];
    var i := 0;
    ghost var all := MemTokens(s);
    ghost var left := all;
    NothingToScan();
    assert s[0..] == s;
    while i < |s|
      invariant 0 <= i <= |s|
      invariant left == MemTokens(s[i..])
      invariant tokens + left == all
    {
      var more, next := ScanMem(s, i);
      MemTokensStep(s, i);
      tokens, i := tokens + more, next;
      left := MemTokens(s[i..]);
    }
    assert s[i..] == "";
  }

  // ---- internal/expr/builder.go ----

  predicate IsCondPunct(c: char) {
    c == '?' || c == '(' || c == ')' || c == ',' || c == '=' || c == '<' || c == '>'
  }

  function BuilderTurn(s: string): (t: Turn)
    requires s != ""
    ensures 0 < t.len <= |s|
  {
    var ch := s[0];
    if IsBlank(ch) then Skip(1)
    else if |s| >= 2 && IsTwoCharOp(ch, s[1]) then Emit(2)
    else if IsCondPunct(ch) then Emit(1)
    else if IsIdentStart(ch) || ch == '#' then Emit(1 + WordLen(s[1..], true))
    else if IsDigit(ch) then Emit(NumberLen(s))
    else Skip(1)
  }

  function BuilderTokens(s: string): seq<string>
  {
    if s == "" then [] else var t := BuilderTurn(s); Tokens(s, t) + BuilderTokens(s[t.len..])
  }

  method ScanBuilder(s: string, start: nat) returns (tokens: seq<string>, i: nat)
    requires start < |s|
    ensures start < i <= |s|
    ensures var t := BuilderTurn(s[start..]); i == start + t.len && tokens == Tokens(s[start..], t)
  {
    i, tokens := start, [];
    var ch := s[i];
    ghost var rest := s[start..];
    assert rest[1..] == s[start + 1..];
    if IsBlank(ch) {
      i := i + 1;
    } else if i + 1 < |s| && IsTwoCharOp(ch, s[i + 1]) {
      i := i + 2;
      tokens := [s[start..i]];
    } else if IsCondPunct(ch) {
      i := i + 1;
      tokens := [s[start..i]];
    } else if IsIdentStart(ch) || ch == '#' {
      i := SkipWord(s, i + 1, true);
      tokens := [s[start..i]];
    } else if IsDigit(ch) {
      i := SkipNumber(s, i);
      tokens := [s[start..i]];
    } else {
      i := i + 1;
    }
    assert s[start..i] == rest[..i - start];
  }

  lemma BuilderTokensStep(s: string, i: nat)
    requires i < |s|
    ensures var t := BuilderTurn(s[i..]); BuilderTokens(s[i..]) == Tokens(s[i..], t) + BuilderTokens(s[i + t.len..])
  {
    var t := BuilderTurn(s[i..]);
    assert s[i..][t.len..] == s[i + t.len..];
  }

  method TokenizeBuilder(s: string) returns (tokens: seq<string>)
    ensures tokens == BuilderTokens(s)
  {
    hide *;
    tokens := [];
    var i := 0;
    ghost var all := BuilderTokens(s);
    ghost var left := all;
    NothingToScan();
    assert s[0..] == s;
    while i < |s|
      invariant 0 <= i <= |s|
      invariant left == BuilderTokens(s[i..])
      invariant tokens + left == all
    {
      var more, next := ScanBuilder(s, i);
      BuilderTokensStep(s, i);
      tokens, i := tokens + more, next;
      left := BuilderTokens(s[i..]);
    }
    assert s[i..] == "";
  }

  // ---- condition.go: the same scanner, with '_' listed once more ----

  method SkipConditionWord(s: string, from: nat) returns (i: nat)
    requires from <= |s|
    ensures i == from + WordLen(s[from..], true)
  {
    i := from;
    while i < |s| && (IsIdentPart(s[i]) || s[i] == '.' || s[i] == '_')
      invariant from <= i <= |s|
      invariant from + WordLen(s[from..], true) == i + WordLen(s[i..], true)
    {
      assert s[i..][1..] == s[i + 1..];
      i := i + 1;
    }
  }

  method ScanCondition(s: string, start: nat) returns (tokens: seq<string>, i: nat)
    requires start < |s|
    ensures start < i <= |s|
    ensures var t := BuilderTurn(s[start..]); i == start + t.len && tokens == Tokens(s[start..], t)
  {
    i, tokens := start, [];
    var ch := s[i];
    ghost var rest := s[start..];
    assert rest[1..] == s[start + 1..];
    if IsBlank(ch) {
      i := i + 1;
    } else if i + 1 < |s| && IsTwoCharOp(ch, s[i + 1]) {
      i := i + 2;
      tokens := [s[start..i]];
    } else if IsCondPunct(ch) {
      i := i + 1;
      tokens := [s[start..i]];
    } else if IsIdentStart(ch) || ch == '#' {
      i := SkipConditionWord(s, i + 1);
      tokens := [s[start..i]];
    } else if IsDigit(ch) {
      i := SkipNumber(s, i);
      tokens := [s[start..i]];
    } else {
      i := i + 1;
    }
    assert s[start..i] == rest[..i - start];
  }

  method TokenizeCondition(s: string) returns (tokens: seq<string>)
    ensures tokens == BuilderTokens(s)
  {
    hide *;
    tokens := [];
    var i := 0;
    ghost var all := BuilderTokens(s);
    ghost var left := all;
    NothingToScan();
    assert s[0..] == s;
    while i < |s|
      invariant 0 <= i <= |s|
      invariant left == BuilderTokens(s[i..])
      invariant tokens + left == all
    {
      var more, next := ScanCondition(s, i);
      BuilderTokensStep(s, i);
      tokens, i := tokens + more, next;
      left := BuilderTokens(s[i..]);
    }
    assert s[i..] == "";
  }

  // ---- Where a text can be cut without changing its tokens ----

  /** No memdb token that starts earlier can run into r. */
  predicate Boundary(r: string) { r == "" || r[0] == ' ' || r[0] == '(' || r[0] == ')' || r[0] == ',' }

  lemma {:induction false} WordLenStops(a: string, r: string, dotted: bool)
    requires Boundary(r)
    ensures WordLen(a + r, dotted) == WordLen(a, dotted)
  {
    if a == "" {
      assert a + r == r;
    } else {
      assert (a + r)[1..] == a[1..] + r;
      WordLenStops(a[1..], r, dotted);
    }
  }

  lemma {:induction false} NumberLenStops(a: string, r: string)
    requires Boundary(r)
    ensures NumberLen(a + r) == NumberLen(a)
  {
    if a == "" {
      assert a + r == r;
    } else {
      assert (a + r)[1..] == a[1..] + r;
      NumberLenStops(a[1..], r);
    }
  }

  lemma MemTurnStops(a: string, r: string)
    requires a != "" && Boundary(r)
    ensures MemTurn(a + r) == MemTurn(a)
  {
    hide WordLen, NumberLen;
    var ch := a[0];
    assert (a + r)[1..] == a[1..] + r;
    if ch == ':' || ch == '#' {
      WordLenStops(a[1..], r, false);
    } else if IsIdentStart(ch) {
      WordLenStops(a[1..], r, true);
    } else if IsDigit(ch) {
      NumberLenStops(a[1..], r);
    }
  }

  /** Tokenizing is a homomorphism wherever the second part starts at a boundary. */
  lemma {:induction false} MemTokensConcat(a: string, r: string)
    requires Boundary(r)
    ensures MemTokens(a + r) == MemTokens(a) + MemTokens(r)
    decreases |a|
  {
    if a == "" {
      assert a + r == r;
    } else {
      MemTurnStops(a, r);
      var t := MemTurn(a);
      assert (a + r)[..t.len] == a[..t.len];
      assert (a + r)[t.len..] == a[t.len..] + r;
      MemTokensConcat(a[t.len..], r);
    }
  }

  lemma MemTokensBlank(r: string)
    ensures MemTokens(" " + r) == MemTokens(r)
  {
    assert (" " + r)[1..] == r;
  }

  /** One punctuation character that no two-character operator starts with. */
  lemma MemTokensPunct(c: char, r: string)
    requires c == '(' || c == ')' || c == ',' || c == '='
    ensures MemTokens([c] + r) == [[c]] + MemTokens(r)
  {
    var s := [c] + r;
    assert s[1..] == r && s[..1] == [c];
  }

  /** A placeholder such as "#name" or ":v0" is one token. */
  lemma MemTokensPlaceholder(c: char, name: string)
    requires (c == '#' || c == ':') && AllIdentPart(name)
    ensures MemTokens([c] + name) == [[c] + name]
  {
    var s := [c] + name;
    assert s[1..] == name;
    assert WordLen(name, false) == |name|;
    assert s[..|s|] == s && s[|s|..] == "";
  }

  /** An undotted identifier is one token. */
  lemma MemTokensIdentifier(name: string)
    requires IsIdentifier(name)
    ensures MemTokens(name) == [name]
  {
    var word := name[1..];
    assert WordLen(word, true) == |word| by {
      assert forall i :: 0 <= i < |word| ==> word[i] == name[i + 1];
    }
    assert MemTurn(name) == Emit(|name|);
    assert name[..|name|] == name;
    assert name[|name|..] == "";
    assert MemTokens("") == [];
  }

  /** A comparison operator is one token. */
  lemma MemTokensOperator(op: string)
    requires op in {"=", "<>", "<", "<=", ">", ">="}
    ensures MemTokens(op) == [op]
  {
    assert op[..|op|] == op && op[|op|..] == "";
    if |op| == 1 {
      assert op[..1] == op && op[1..] == "";
    } else {
      assert op[..2] == op && op[2..] == "";
    }
  }
}
