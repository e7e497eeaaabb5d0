/** Key conditions as strings: the client writes them (query.go), memdb takes them
    apart again (memdb/memdb.go). */
module KeyCondition {
  import opened Base
  import opened Values
  import opened Ast
  import opened Parser
  import opened Translate
  import opened Condition

  // ---- strings.Index, trimSpace ----

  predicate At(s: string, sub: string, i: nat) { i + |sub| <= |s| && s[i..i + |sub|] == sub }

  function IndexFrom(s: string, sub: string, i: nat): (r: Option<nat>)
    requires i <= |s|
    ensures r.Some? ==> i <= r.value && At(s, sub, r.value) && forall j :: i <= j < r.value ==> !At(s, sub, j)
    ensures r.None? ==> forall j :: i <= j <= |s| ==> !At(s, sub, j)
    decreases |s| - i
  {
    if At(s, sub, i) then Some(i) else if i == |s| then None else IndexFrom(s, sub, i + 1)
  }

  /** strings.Index. */
  function IndexOf(s: string, sub: string): (r: Option<nat>)
    ensures r.Some? ==> At(s, sub, r.value) && forall j :: 0 <= j < r.value ==> !At(s, sub, j)
    ensures r.None? ==> forall j :: 0 <= j <= |s| ==> !At(s, sub, j)
  {
    IndexFrom(s, sub, 0)
  }

  predicate Includes(s: string, sub: string) { IndexOf(s, sub).Some? }

  predicate IsSpace(c: char) { c == ' ' || c == '\t' }

  function TrimLeft(s: string): string { if s != "" && IsSpace(s[0]) then TrimLeft(s[1..]) else s }

  function TrimRight(s: string): string {
    if s != "" && IsSpace(s[|s| - 1]) then TrimRight(s[..|s| - 1]) else s
  }

  function Trim(s: string): string { TrimRight(TrimLeft(s)) }

  // ---- What memdb understands ----

  datatype SortOp = Comparing(op: CompareOp) | BeginsWith | Between

  /** sortKeyCondition; `value2` is only used by BETWEEN. */
  datatype SortCond = SortCond(op: SortOp, attr: string, value: AttributeValue, value2: AttributeValue)

  datatype KeyParts = KeyParts(pk: AttributeValue, sk: Option<SortCond>)

  /** " AND " at i, in any letter case. */
  predicate AndAt(s: string, i: nat) { i + 5 <= |s| && ToUpper(s[i..i + 5]) == " AND " }

  /** Where splitOnAND splits: the first AND outside parentheses with no BETWEEN to
      its left. */
  function SplitPoint(s: string, i: nat, depth: int): (r: Option<nat>)
    requires i <= |s|
    ensures r.Some? ==> i <= r.value && AndAt(s, r.value)
    decreases |s| - i
  {
    if i == |s| then None
    else if s[i] == '(' then SplitPoint(s, i + 1, depth + 1)
    else if s[i] == ')' then SplitPoint(s, i + 1, depth - 1)
    else if depth == 0 && AndAt(s, i) && !Includes(ToUpper(Trim(s[..i])), " BETWEEN ") then Some(i)
    else SplitPoint(s, i + 1, depth)
  }

  function SplitOnAND(s: string): (parts: seq<string>)
    ensures 1 <= |parts| <= 2
  {
    match SplitPoint(s, 0, 0)
    case Some(i) => [Trim(s[..i]), Trim(s[i + 5..])]
    case None => [s]
  }

  function ResolveName(tok: string, env: Env): string {
    if tok != "" && tok[0] == '#' && tok in env.names then env.names[tok] else tok
  }

  function ResolveValue(tok: string, env: Env): Option<AttributeValue> {
    if tok != "" && tok[0] == ':' then Lookup(env.values, tok) else None
  }

  function ParseBeginsWith(part: string, env: Env): Option<SortCond> {
    match (IndexOf(part, "("), LastShut(part))
    case (Some(open), Some(shut)) =>
      // Go panics on a ")" before the "(".
      if shut <= open then None
      else (
        var inner := part[open + 1..shut];
        match IndexOf(inner, ",")
        case None => None
        case Some(comma) =>
          match ResolveValue(Trim(inner[comma + 1..]), env)
          case None => None
          case Some(val) => Some(SortCond(BeginsWith, ResolveName(Trim(inner[..comma]), env), val, NULL)))
    case _ => None
  }

  /** strings.LastIndex(part, ")"). */
  function LastShut(s: string): (r: Option<nat>)
    ensures r.Some? ==> r.value < |s| && s[r.value] == ')'
  {
    if s == "" then None else if s[|s| - 1] == ')' then Some(|s| - 1) else LastShut(s[..|s| - 1])
  }

  function ParseBetween(part: string, env: Env): Option<SortCond> {
    match IndexOf(ToUpper(part), " BETWEEN ")
    case None => None
    case Some(at) =>
      var rest := part[at + 9..];
      match IndexOf(ToUpper(rest), " AND ")
      case None => None
      case Some(and) =>
        match (ResolveValue(Trim(rest[..and]), env), ResolveValue(Trim(rest[and + 5..]), env))
        case (Some(lo), Some(hi)) => Some(SortCond(Between, ResolveName(Trim(part[..at]), env), lo, hi))
        case _ => None
  }

  datatype Comparison = Comparison(attr: string, op: CompareOp, value: AttributeValue)

  /** The operators in the order in which parseSimpleComparison looks for them. */
  const OPS: seq<CompareOp> := [LE, GE, NE, EQ, LT, GT]

  function ParseSimple(part: string, ops: seq<CompareOp>, env: Env): Option<Comparison> {
    if ops == [] then None
    else
      match IndexOf(part, OpSymbol(ops[0]))
      case None => ParseSimple(part, ops[1..], env)
      case Some(at) =>
        match ResolveValue(Trim(part[at + |OpSymbol(ops[0])|..]), env)
        case Some(val) => Some(Comparison(ResolveName(Trim(part[..at]), env), ops[0], val))
        case None => None
  }

  predicate IsBeginsWith(part: string) {
    "begins_with(" <= ToLower(part) || "begins_with (" <= ToLower(part)
  }

  datatype State = State(pk: Option<AttributeValue>, sk: Option<SortCond>)

  /** What one part adds to what has been found. */
  function ParsePart(part: string, st: State, env: Env, pkName: string, range: Option<string>): Option<State> {
    if IsBeginsWith(part) then
      match ParseBeginsWith(part, env) case Some(sc) => Some(st.(sk := Some(sc))) case None => None
    else if Includes(ToUpper(part), " BETWEEN ") then
      match ParseBetween(part, env) case Some(sc) => Some(st.(sk := Some(sc))) case None => None
    else
      match ParseSimple(part, OPS, env)
      case None => None
      case Some(c) =>
        if c.attr == pkName && c.op == EQ then Some(st.(pk := Some(c.value)))
        else if range == Some(c.attr) then Some(st.(sk := Some(SortCond(Comparing(c.op), c.attr, c.value, NULL))))
        else None
  }

  function ParseParts(parts: seq<string>, st: State, env: Env, pkName: string, range: Option<string>): Option<State> {
    if parts == [] then Some(st)
    else
      match ParsePart(Trim(parts[0]), st, env, pkName, range)
      case Some(next) => ParseParts(parts[1..], next, env, pkName, range)
      case None => None
  }

  /** parseKeyCondition. */
  function ParseKeyCondition(expression: string, env: Env, pkName: string, range: Option<string>): Result<KeyParts> {
    match ParseParts(SplitOnAND(expression), State(None, None), env, pkName, range)
    case Some(State(Some(pk), sk)) => Ok(KeyParts(pk, sk))
    case _ => Err
  }

  // ---- The loops ----

  method SplitOnANDInPlace(s: string) returns (parts: seq<string>)
    ensures parts == SplitOnAND(s)
  {
    var depth := 0;
    for i := 0 to |s|
      invariant SplitPoint(s, 0, 0) == SplitPoint(s, i, depth)
    {
      hide AndAt, Trim, Includes;
      if s[i] == '(' {
        depth := depth + 1;
      } else if s[i] == ')' {
        depth := depth - 1;
      } else if depth == 0 && AndAt(s, i) {
        if !Includes(ToUpper(Trim(s[..i])), " BETWEEN ") {
          return [Trim(s[..i]), Trim(s[i + 5..])];
        }
      }
    }
    parts := [s];
  }

  method ParseKeyConditionText(expression: string, env: Env, pkName: string, range: Option<string>) returns (r: Result<KeyParts>)
    ensures r == ParseKeyCondition(expression, env, pkName, range)
  {
    hide ParsePart, SplitOnAND, Trim;
    var parts := SplitOnANDInPlace(expression);
    var st := State(None, None);
    assert parts[0..] == parts;
    for i := 0 to |parts|
      invariant ParseParts(parts, State(None, None), env, pkName, range) == ParseParts(parts[i..], st, env, pkName, range)
    {
      assert parts[i..][1..] == parts[i + 1..];
      var next := ParsePart(Trim(parts[i]), st, env, pkName, range);
      if next.None? {
        return Err;
      }
      st := next.value;
    }
    r := match st.pk case Some(pk) => Ok(KeyParts(pk, st.sk)) case None => Err;
  }

  // ---- What the client writes ----

  datatype SortMethod =
    | NoSort
    | SortCompare(op: CompareOp, attr: string, val: AttributeValue)
    | SortBeginsWith(attr: string, prefix: AttributeValue)
    | SortBetween(attr: string, low: AttributeValue, high: AttributeValue)

  /** Partition(attr, val) with at most one Sort method. */
  datatype KeyCond = KeyCond(attr: string, val: AttributeValue, sort: SortMethod)

  function SortText(sort: SortMethod): string {
    match sort
    case NoSort => ""
    case SortCompare(op, attr, _) => Alias(attr) + " " + OpSymbol(op) + " :sk0"
    case SortBeginsWith(attr, _) => "begins_with(" + Alias(attr) + ", :sk0)"
    case SortBetween(attr, _, _) => Alias(attr) + " BETWEEN :sk0 AND :sk1"
  }

  function SortNames(sort: SortMethod): map<string, string> {
    if sort.NoSort? then map[] else map[Alias(sort.attr) := sort.attr]
  }

  function SortValues(sort: SortMethod): map<string, AttributeValue> {
    match sort
    case NoSort => map[]
    case SortCompare(_, _, val) => map[":sk0" := val]
    case SortBeginsWith(_, prefix) => map[":sk0" := prefix]
    case SortBetween(_, low, high) => map[":sk0" := low, ":sk1" := high]
  }

  function KeyText(key: KeyCond): string {
    Alias(key.attr) + " = :pk0" + (if key.sort.NoSort? then "" else " AND " + SortText(key.sort))
  }

  /** The expressions and placeholders of a query request. */
  datatype QueryText = QueryText(keyCondition: string, filter: string, names: map<string, string>, values: map<string, AttributeValue>)

  /** buildQueryRequest, as far as its expressions go. */
  method BuildQueryText(key: KeyCond, filter: Option<ConditionExpr>, projection: map<string, string>) returns (q: QueryText)
    ensures q.keyCondition == KeyText(key)
    ensures q.filter == match filter case Some(c) => c.expression case None => ""
    ensures q.names == map[Alias(key.attr) := key.attr] + SortNames(key.sort)
                     + (match filter case Some(c) => c.names case None => map[]) + projection
    ensures q.values == map[":pk0" := key.val] + SortValues(key.sort) + (match filter case Some(c) => c.values case None => map[])
  {
    var pkAlias := Alias(key.attr);
    var names := map[pkAlias := key.attr];
    var values := map[":pk0" := key.val];
    var keyExpr := pkAlias + " = :pk0";
    hide SortText, SortNames, SortValues, Alias;
    if !key.sort.NoSort? {
      keyExpr := keyExpr + (" AND " + SortText(key.sort));
    } else {
      assert keyExpr + "" == keyExpr;
    }
    names := CopyInto(names, SortNames(key.sort));
    values := CopyInto(values, SortValues(key.sort));
    var filterExpr := "";
    if filter.Some? {
      filterExpr := filter.value.expression;
      names := CopyInto(names, filter.value.names);
      values := CopyInto(values, filter.value.values);
    }
    names := CopyInto(names, projection);
    q := QueryText(keyExpr, filterExpr, names, values);
  }
}
