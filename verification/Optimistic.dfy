/** ReadModifyWrite with OptimisticLock (rmw.go) as a protocol of many clients on
    one item: reads, calls of fn and conditional puts, interleaved in any way. */
module Optimistic {
  import opened Base
  import opened Values
  import Ast
  import opened Lexer
  import opened Parser
  import Evaluation
  import opened Condition
  import opened Merging
  import opened Store
  import opened Requests
  import opened Backend

  // ---- The version attribute ----

  const INT64_MAX: int := 0x7FFF_FFFF_FFFF_FFFF

  predicate IsInt64(i: int) { -INT64_MAX - 1 <= i <= INT64_MAX }

  /** Addition of one in an int64. */
  function Increment(v: int): int { if v == INT64_MAX then -INT64_MAX - 1 else v + 1 }

  function Numeral(v: int): AttributeValue { N(IntToString(v)) }

  /** getVersionField: zero when the attribute is missing, because the struct field
      then keeps its zero value; an error when it is not an int64 numeral. */
  function Version(item: Item, attr: string): Result<int> {
    if attr !in item then Ok(0)
    else
      match item[attr]
      case N(n) => (
        match ParseInt(n)
        case Some(v) => if IsInt64(v) then Ok(v) else Err
        case None => Err)
      case _ => Err
  }

  predicate HasVersion(item: Item, attr: string, v: int) { attr in item && item[attr] == Numeral(v) }

  lemma HasVersionIsVersion(item: Item, attr: string, v: int)
    requires HasVersion(item, attr, v) && IsInt64(v)
    ensures Version(item, attr) == Ok(v)
  {
    IntRoundTrip(v);
  }

  /** PutCondition(attr + " = ?", v). */
  function VersionCondition(attr: string, v: int): ConditionExpr { ComparisonExpr(attr, Ast.EQ, Numeral(v)) }

  lemma VersionTokens(attr: string)
    requires IsIdentifier(attr)
    ensures BuilderTokens(attr + " = ?") == [attr, "=", "?"]
  {
    hide *;
    FirstWord(attr, " = ?");
    EqualsQuestion();
    BuilderStep(attr + " = ?", Emit(|attr|), " = ?");
    JoinTokens(attr, "=", "?");
  }

  lemma JoinTokens(a: string, b: string, c: string)
    ensures [a] + ([b] + [c]) == [a, b, c]
  {
  }

  lemma FirstWord(word: string, rest: string)
    requires IsIdentifier(word) && rest != "" && rest[0] == ' '
    ensures word + rest != "" && BuilderTurn(word + rest) == Emit(|word|) && (word + rest)[|word|..] == rest
    ensures Tokens(word + rest, Emit(|word|)) == [word]
  {
    WordLenStops(word[1..], rest, true);
    WordLenOfIdentifier(word[1..]);
    hide WordLen, NumberLen;
    assert (word + rest)[1..] == word[1..] + rest;
    assert (word + rest)[..|word|] == word;
  }

  lemma EqualsQuestion()
    ensures BuilderTokens(" = ?") == ["="] + ["?"]
  {
    var a, b, c, d := " = ?", "= ?", " ?", "?";
    assert a[1..] == b && b[1..] == c && c[1..] == d && d[1..] == "";
    assert b[..1] == "=" && d[..1] == "?";
    assert BuilderTurn(a) == Skip(1) && BuilderTurn(b) == Emit(1) && BuilderTurn(c) == Skip(1) && BuilderTurn(d) == Emit(1);
    assert BuilderTokens("") == [];
    hide BuilderTurn;
    BuilderStep(d, Emit(1), "");
    BuilderStep(c, Skip(1), d);
    BuilderStep(b, Emit(1), c);
    BuilderStep(a, Skip(1), b);
  }

  lemma BuilderStep(s: string, t: Turn, rest: string)
    requires s != "" && BuilderTurn(s) == t && s[t.len..] == rest
    ensures BuilderTokens(s) == Tokens(s, t) + BuilderTokens(rest)
  {
    hide BuilderTurn;
  }

  lemma {:induction false} WordLenOfIdentifier(s: string)
    requires AllIdentPart(s)
    ensures WordLen(s, true) == |s|
  {
    if s != "" {
      WordLenOfIdentifier(s[1..]);
    }
  }

  /** buildCondition makes exactly that condition of the text that ReadModifyWrite
      gives it. */
  lemma VersionConditionIsBuilt(attr: string, v: int, r: Result<ConditionExpr>)
    requires IsIdentifier(attr) && !IsLogical(ToUpper(attr))
    requires Translated(BuilderTokens(attr + " = ?"), [Numeral(v)], r)
    ensures r == Ok(VersionCondition(attr, v))
  {
    hide BuilderTokens, Translated, IsLogical, ComparisonExpr;
    VersionTokens(attr);
    EqualsSign();
    ComparisonIsBuilt(attr, Ast.EQ, Numeral(v), r);
  }

  lemma EqualsSign()
    ensures Ast.OpSymbol(Ast.EQ) == "="
  {
  }

  /** memdb compares versions as float64 values: the check passes exactly when the
      stored version and the expected one round to the same float64, and never on an
      item without the attribute. */
  lemma VersionCheckIff(attr: string, v: int, item: Item)
    requires AllIdentPart(attr)
    ensures var c := VersionCondition(attr, v);
      attr !in item ==> EvalCondition(c.expression, c.Environment(), item) == Ok(false)
    ensures var c := VersionCondition(attr, v);
      forall stored :: HasVersion(item, attr, stored) ==>
        EvalCondition(c.expression, c.Environment(), item) == Ok(Float64(stored) == Float64(v))
  {
    ComparisonMeaning(attr, Ast.EQ, Numeral(v));
    VersionTextIsNotEmpty(attr, v);
    var c, n := VersionCondition(attr, v), Comparison(attr, Ast.EQ, Numeral(v));
    assert EvalCondition(c.expression, c.Environment(), item) == Evaluation.Eval(n, item) by {
      hide ComparisonExpr, ParseExpression, Evaluation.Eval;
    }
    EvalOfVersion(attr, v, item);
  }

  lemma VersionTextIsNotEmpty(attr: string, v: int)
    ensures VersionCondition(attr, v).expression != ""
  {
    PrintedComparison(attr, Ast.EQ, Numeral(v));
  }

  lemma EvalOfVersion(attr: string, v: int, item: Item)
    ensures var n := Comparison(attr, Ast.EQ, Numeral(v));
      (attr !in item ==> Evaluation.Eval(n, item) == Ok(false))
      && forall stored :: HasVersion(item, attr, stored) ==> Evaluation.Eval(n, item) == Ok(Float64(stored) == Float64(v))
  {
    hide IntToString, Float64, ParseFloat;
    ParsePrintedFloat(v);
    forall stored | HasVersion(item, attr, stored)
      ensures Evaluation.Eval(Comparison(attr, Ast.EQ, Numeral(v)), item) == Ok(Float64(stored) == Float64(v))
    {
      ParsePrintedFloat(stored);
    }
  }

  // ---- One attempt ----

  /** The caller's function; it may fail. */
  type Modifier = Item -> Result<Item>

  /** The put that an attempt sends after reading `item`. */
  function Prepare(fn: Modifier, lock: Option<string>, item: Item): Result<Op> {
    match fn(item)
    case Err => Err
    case Ok(changed) =>
      match lock
      case None => Ok(Put(changed, "", Env(map[], map[])))
      case Some(attr) =>
        match Version(changed, attr)
        case Err => Err
        case Ok(v) =>
          var c := VersionCondition(attr, v);
          Ok(Put(changed[attr := Numeral(Increment(v))], c.expression, c.Environment()))
  }

  datatype Verdict = NoError | Conflict | NotFound | FnFailed | BackendError

  lemma PreparedIsPut(fn: Modifier, lock: Option<string>, item: Item)
    requires Prepare(fn, lock, item).Ok?
    ensures var put := Prepare(fn, lock, item).value;
      put.Put? && put == Put(put.item, put.cond, put.env)
  {
  }

  lemma TableIsValid(db: Database, name: string)
    requires ValidDatabase(db) && name in db
    ensures ValidTable(db[name])
  {
  }

  /** What one attempt comes to when nobody else writes. */
  datatype Attempt = Stopped(verdict: Verdict) | Clashed | Saved(t: Table)

  function AttemptOn(t: Table, key: Item, fn: Modifier, lock: Option<string>): Attempt
    requires ValidTable(t)
  {
    match ReadOne(t, key)
    case Err => Stopped(BackendError)
    case Ok(found) =>
      if OrEmpty(found) == map[] then Stopped(NotFound)
      else
        match Prepare(fn, lock, OrEmpty(found))
        case Err => Stopped(FnFailed)
        case Ok(put) =>
          match WriteOne(t, put)
          case Done(u) => Saved(u)
          case ConditionFailed => Clashed
          case Error => Stopped(BackendError)
  }

  /** ReadModifyWrite by a client that is alone: nothing changes between attempts, so
      they all go as the first one, and a conflict is found maxRetries + 1 times. */
  method ReadModifyWrite(b: MemoryBackend, name: string, key: Item, fn: Modifier, lock: Option<string>, maxRetries: int)
    returns (verdict: Verdict, ghost calls: nat)
    requires b.Valid() && name in b.tables
    modifies b.tables.Values
    ensures b.Valid() && ValidDatabase(old(b.State())) && name in old(b.State())
    ensures maxRetries < 0 ==> verdict == Conflict && calls == 0 && b.State() == old(b.State())
    ensures maxRetries >= 0 ==>
      match AttemptOn(old(b.State())[name], key, fn, lock)
      case Stopped(why) => verdict == why && calls <= 1 && b.State() == old(b.State())
      case Saved(t) => verdict == NoError && calls == 1 && b.State() == old(b.State())[name := t]
      case Clashed =>
        && verdict == Conflict
        && calls == (if lock.Some? then maxRetries + 1 else 1)
        && b.State() == old(b.State())
  {
    hide AttemptOn, ValidDatabase, ValidTable, MemoryBackend.Valid;
    b.StateIsValid();
    TableIsValid(b.State(), name);
    ghost var before := b.State();
    calls := 0;
    var attempt := 0;
    while attempt <= maxRetries
      invariant b.Valid() && b.State() == before && calls == attempt
      invariant 0 <= attempt <= maxRetries + 1 || (maxRetries < 0 && attempt == 0)
      invariant attempt > 0 ==> AttemptOn(before[name], key, fn, lock) == Clashed && attempt <= maxRetries && lock.Some?
    {
      var called;
      verdict, called := TryOnce(b, name, key, fn, lock);
      calls := calls + if called then 1 else 0;
      if verdict == Conflict && lock.Some? && attempt < maxRetries {
        attempt := attempt + 1;
        continue;
      }
      return;
    }
    verdict := Conflict;
  }

  /** The body of the loop. */
  method TryOnce(b: MemoryBackend, name: string, key: Item, fn: Modifier, lock: Option<string>)
    returns (verdict: Verdict, called: bool)
    requires b.Valid() && name in b.tables
    modifies b.tables.Values
    ensures b.Valid() && ValidDatabase(old(b.State())) && name in old(b.State())
    ensures match AttemptOn(old(b.State())[name], key, fn, lock)
            case Stopped(why) => verdict == why && why != Conflict && b.State() == old(b.State())
            case Saved(t) => verdict == NoError && called && b.State() == old(b.State())[name := t]
            case Clashed => verdict == Conflict && called && b.State() == old(b.State())
  {
    hide Prepare, WriteOne, ReadOne, ValidDatabase, ValidTable, MemoryBackend.Valid;
    b.StateIsValid();
    TableIsValid(b.State(), name);
    called := false;
    var found := b.GetItem(Read(name, key, "", map[]));
    if found.Err? {
      return BackendError, called;
    }
    var item := OrEmpty(found.value);
    if item == map[] {
      return NotFound, called;
    }
    called := true;
    var put := Prepare(fn, lock, item);
    if put.Err? {
      return FnFailed, called;
    }
    PreparedIsPut(fn, lock, item);
    var reply := b.PutItem(name, put.value.item, put.value.cond, put.value.env);
    verdict := match reply case Success => NoError case Invalid => BackendError case CheckFailed => Conflict;
  }

  // ---- The protocol ----

  datatype Job = Job(fn: Modifier, maxRetries: int)

  /** Where a client is. `since` is a history variable: how many puts had succeeded
      when the client read. */
  datatype Client =
    | Idle(attempt: nat)
    | Got(attempt: nat, item: Item, since: nat)
    | Ready(attempt: nat, put: Op, since: nat)
    | Returned(verdict: Verdict)

  datatype Setup = Setup(table: Table, key: Item, attr: string, jobs: seq<Job>)

  /** `commits` and `calls` are history variables: the clients whose puts succeeded,
      in order, and how often each client has called its fn. */
  datatype World = World(table: Table, clients: seq<Client>, commits: seq<nat>, calls: seq<nat>)

  function Start(setup: Setup): World {
    World(setup.table, seq(|setup.jobs|, i => Idle(0)), [], seq(|setup.jobs|, i => 0))
  }

  predicate Shaped(setup: Setup, w: World) { |w.clients| == |w.calls| == |setup.jobs| && ValidTable(w.table) }

  /** One step of one client: a read, a call of fn, or a put. */
  function Act(setup: Setup, w: World, c: nat): Option<World>
    requires Shaped(setup, w) && c < |w.clients|
  {
    var job := setup.jobs[c];
    match w.clients[c]
    case Idle(attempt) => Some(w.(clients := w.clients[c := AfterRead(job, attempt, ReadOne(w.table, setup.key), |w.commits|)]))
    case Got(attempt, item, since) =>
      Some(w.(clients := w.clients[c := AfterCall(job, attempt, Prepare(job.fn, Some(setup.attr), item), since)],
              calls := w.calls[c := w.calls[c] + 1]))
    case Ready(attempt, put, since) => (
      match WriteOne(w.table, put)
      case Done(t) => Some(World(t, w.clients[c := Returned(NoError)], w.commits + [c], w.calls))
      case ConditionFailed =>
        Some(w.(clients := w.clients[c := if attempt < job.maxRetries then Idle(attempt + 1) else Returned(Conflict)]))
      case Error => Some(w.(clients := w.clients[c := Returned(BackendError)])))
    case Returned(_) => None
  }

  function AfterRead(job: Job, attempt: nat, read: Result<Option<Item>>, now: nat): Client {
    if attempt > job.maxRetries then Returned(Conflict)
    else
      match read
      case Err => Returned(BackendError)
      case Ok(found) => if OrEmpty(found) == map[] then Returned(NotFound) else Got(attempt, OrEmpty(found), now)
  }

  function AfterCall(job: Job, attempt: nat, prepared: Result<Op>, since: nat): Client {
    match prepared
    case Ok(put) => Ready(attempt, put, since)
    case Err => Returned(FnFailed)
  }

  /** Somebody writes another item of the table. */
  ghost predicate OtherWrite(setup: Setup, w: World, w': World)
    requires ValidTable(w.table)
  {
    exists k, newItem :: Some(k) != ExtractKey(setup.key, setup.table.schema.key) && w' == w.(table := Write(w.table, k, newItem))
  }

  ghost predicate Next(setup: Setup, w: World, w': World) {
    && Shaped(setup, w)
    && (OtherWrite(setup, w, w') || exists c: nat :: c < |w.clients| && Act(setup, w, c) == Some(w'))
  }

  ghost predicate Interleaving(setup: Setup, run: seq<World>) {
    run != [] && run[0] == Start(setup) && forall i :: 0 < i < |run| ==> Next(setup, run[i - 1], run[i])
  }

  // ---- What the protocol is for ----

  /** fn leaves the key and the version alone. */
  ghost predicate Polite(fn: Modifier, schema: KeySchema, attr: string) {
    forall item :: fn(item).Ok? ==>
      && ExtractKey(fn(item).value, schema) == ExtractKey(item, schema)
      && (attr in item ==> attr in fn(item).value && fn(item).value[attr] == item[attr])
  }

  predicate NotAKey(schema: KeySchema, attr: string) { attr != schema.hash && Some(attr) != schema.range }

  /** The item is there, with version v, and versions stay where float64 is exact. */
  ghost predicate Fair(setup: Setup, k: Key, v: int) {
    var schema := setup.table.schema.key;
    && ValidTable(setup.table)
    && ExtractKey(setup.key, schema) == Some(k)
    && Get(setup.table, k).Some?
    && ExtractKey(Get(setup.table, k).value, schema) == Some(k)
    && HasVersion(Get(setup.table, k).value, setup.attr, v)
    && -TWO_53 <= v && v + |setup.jobs| <= TWO_53
    && AllIdentPart(setup.attr) && NotAKey(schema, setup.attr)
    && forall c :: 0 <= c < |setup.jobs| ==> Polite(setup.jobs[c].fn, schema, setup.attr)
  }

  /** The functions of the clients in the list, applied to the initial item one after
      another, the n-th with version v + n. */
  function Fold(setup: Setup, k: Key, v: int, commits: seq<nat>): Item
    requires Get(setup.table, k).Some? && forall i :: 0 <= i < |commits| ==> commits[i] < |setup.jobs|
  {
    if commits == [] then Get(setup.table, k).value
    else
      var before := Fold(setup, k, v, commits[..|commits| - 1]);
      match setup.jobs[commits[|commits| - 1]].fn(before)
      case Ok(changed) => changed[setup.attr := Numeral(v + |commits|)]
      case Err => before
  }

  ghost predicate Orders(setup: Setup, commits: seq<nat>) {
    && (forall i :: 0 <= i < |commits| ==> commits[i] < |setup.jobs|)
    && (forall i, j :: 0 <= i < j < |commits| ==> commits[i] != commits[j])
  }

  /** What holds of one client. */
  ghost predicate ClientInv(setup: Setup, k: Key, v: int, commits: seq<nat>, c: nat, client: Client, calls: nat)
    requires c < |setup.jobs| && Get(setup.table, k).Some? && Orders(setup, commits)
  {
    var job := setup.jobs[c];
    match client
    case Idle(attempt) => calls == attempt <= |commits| && c !in commits && (attempt == 0 || attempt <= job.maxRetries)
    case Got(attempt, item, since) =>
      && c !in commits
      && calls == attempt <= since <= |commits|
      && attempt <= job.maxRetries
      && item == Fold(setup, k, v, commits[..since])
    case Ready(attempt, put, since) =>
      && c !in commits
      && calls == attempt + 1
      && attempt <= since <= |commits|
      && attempt <= job.maxRetries
      && Prepare(job.fn, Some(setup.attr), Fold(setup, k, v, commits[..since])) == Ok(put)
    case Returned(verdict) =>
      && (verdict == NoError <==> c in commits)
      && (calls == 0 || calls <= job.maxRetries + 1)
      && (verdict == Conflict ==> job.maxRetries < |commits|)
      && verdict != NotFound && verdict != BackendError
  }

  ghost predicate Inv(setup: Setup, k: Key, v: int, w: World)
    requires Get(setup.table, k).Some?
  {
    && Shaped(setup, w)
    && w.table.schema == setup.table.schema
    && Orders(setup, w.commits)
    && AllSucceed(setup, k, v, w.commits)
    && Get(w.table, k) == Some(Fold(setup, k, v, w.commits))
    && forall c :: 0 <= c < |w.clients| ==> ClientInv(setup, k, v, w.commits, c, w.clients[c], w.calls[c])
  }

  // ---- Facts about the fold ----

  lemma KeyWithVersion(item: Item, schema: KeySchema, attr: string, x: AttributeValue)
    requires NotAKey(schema, attr)
    ensures ExtractKey(item[attr := x], schema) == ExtractKey(item, schema)
  {
  }

  /** The fold sits at the key and has the version that counts the puts. */
  lemma {:induction false} FoldHasVersion(setup: Setup, k: Key, v: int, commits: seq<nat>)
    requires Fair(setup, k, v) && Orders(setup, commits) && |commits| <= |setup.jobs|
    requires AllSucceed(setup, k, v, commits)
    ensures var it := Fold(setup, k, v, commits);
      HasVersion(it, setup.attr, v + |commits|) && ExtractKey(it, setup.table.schema.key) == Some(k)
  {
    hide *;
    FairMeans(setup, k, v);
    if commits == [] {
      NothingFolded(setup, k, v);
    } else {
      var last, front := commits[|commits| - 1], commits[..|commits| - 1];
      PrefixSucceeds(setup, k, v, commits, |commits| - 1);
      FoldHasVersion(setup, k, v, front);
      FoldStep(setup, k, v, commits);
      var before := Fold(setup, k, v, front);
      FnIsPolite(setup, k, v, last, before);
      WithVersion(setup.jobs[last].fn(before).value, setup.table.schema.key, setup.attr, v + |commits|);
    }
  }

  lemma NothingFolded(setup: Setup, k: Key, v: int)
    requires Fair(setup, k, v)
    ensures var it := Fold(setup, k, v, []);
      HasVersion(it, setup.attr, v) && ExtractKey(it, setup.table.schema.key) == Some(k)
  {
  }

  lemma FoldStep(setup: Setup, k: Key, v: int, commits: seq<nat>)
    requires Get(setup.table, k).Some? && Orders(setup, commits) && AllSucceed(setup, k, v, commits) && commits != []
    ensures var last, front := commits[|commits| - 1], commits[..|commits| - 1];
      && last < |setup.jobs|
      && setup.jobs[last].fn(Fold(setup, k, v, front)).Ok?
      && Fold(setup, k, v, commits) == setup.jobs[last].fn(Fold(setup, k, v, front)).value[setup.attr := Numeral(v + |commits|)]
  {
  }

  lemma WithVersion(item: Item, schema: KeySchema, attr: string, v: int)
    requires NotAKey(schema, attr)
    ensures HasVersion(item[attr := Numeral(v)], attr, v)
    ensures ExtractKey(item[attr := Numeral(v)], schema) == ExtractKey(item, schema)
  {
    KeyWithVersion(item, schema, attr, Numeral(v));
  }

  lemma FnIsPolite(setup: Setup, k: Key, v: int, c: nat, item: Item)
    requires Fair(setup, k, v) && c < |setup.jobs| && setup.jobs[c].fn(item).Ok?
    ensures var changed := setup.jobs[c].fn(item).value;
      && ExtractKey(changed, setup.table.schema.key) == ExtractKey(item, setup.table.schema.key)
      && (setup.attr in item ==> setup.attr in changed && changed[setup.attr] == item[setup.attr])
  {
    hide ExtractKey;
    assert Polite(setup.jobs[c].fn, setup.table.schema.key, setup.attr);
  }

  /** Each listed fn succeeded on what it was given. */
  ghost predicate AllSucceed(setup: Setup, k: Key, v: int, commits: seq<nat>)
    requires Get(setup.table, k).Some? && Orders(setup, commits)
  {
    forall i :: 0 <= i < |commits| ==> setup.jobs[commits[i]].fn(Fold(setup, k, v, commits[..i])).Ok?
  }

  /** What an attempt sends when the item it read had version n. */
  lemma PrepareMeans(setup: Setup, k: Key, v: int, c: nat, item: Item, n: int)
    requires Fair(setup, k, v) && c < |setup.jobs| && HasVersion(item, setup.attr, n) && -TWO_53 <= n < TWO_53
    ensures var fn, prepared := setup.jobs[c].fn, Prepare(setup.jobs[c].fn, Some(setup.attr), item);
      && (prepared.Ok? <==> fn(item).Ok?)
      && (prepared.Ok? ==>
            var cond := VersionCondition(setup.attr, n);
            prepared.value == Put(fn(item).value[setup.attr := Numeral(n + 1)], cond.expression, cond.Environment()))
  {
    if setup.jobs[c].fn(item).Ok? {
      FnIsPolite(setup, k, v, c, item);
      hide Fair, VersionCondition;
      HasVersionIsVersion(setup.jobs[c].fn(item).value, setup.attr, n);
    }
  }

  /** A conditional put goes through exactly when the stored version is the expected
      one. */
  lemma PutOutcome(t: Table, k: Key, attr: string, stored: int, n: int, item: Item)
    requires ValidTable(t) && AllIdentPart(attr) && ExtractKey(item, t.schema.key) == Some(k)
    requires Get(t, k).Some? && HasVersion(Get(t, k).value, attr, stored)
    requires -TWO_53 <= stored <= TWO_53 && -TWO_53 <= n <= TWO_53
    ensures var cond := VersionCondition(attr, n);
      WriteOne(t, Put(item, cond.expression, cond.Environment()))
        == (if stored == n then Done(Write(t, k, Some(item))) else ConditionFailed)
  {
    VersionCheckIff(attr, n, Get(t, k).value);
    Float64Exact(stored);
    Float64Exact(n);
    hide VersionCondition, EvalCondition, Write, ExtractKey, Float64;
  }

  lemma PrefixSucceeds(setup: Setup, k: Key, v: int, commits: seq<nat>, n: nat)
    requires Get(setup.table, k).Some? && Orders(setup, commits) && AllSucceed(setup, k, v, commits) && n <= |commits|
    ensures Orders(setup, commits[..n]) && AllSucceed(setup, k, v, commits[..n])
    ensures forall i :: 0 <= i < n ==> commits[..n][i] < |setup.jobs|
  {
    hide Fold;
    assert forall i :: 0 <= i < n ==> commits[..n][..i] == commits[..i];
  }

  /** What a client that has read after `since` puts sends. */
  lemma ReadySends(setup: Setup, k: Key, v: int, commits: seq<nat>, c: nat, since: nat, put: Op)
    requires Fair(setup, k, v) && Orders(setup, commits) && AllSucceed(setup, k, v, commits) && c < |setup.jobs|
    requires since <= |commits| < |setup.jobs|
    requires Prepare(setup.jobs[c].fn, Some(setup.attr), Fold(setup, k, v, commits[..since])) == Ok(put)
    ensures var cond := VersionCondition(setup.attr, v + since);
      put.Put? && put == Put(put.item, cond.expression, cond.Environment())
    ensures ExtractKey(put.item, setup.table.schema.key) == Some(k)
    ensures setup.jobs[c].fn(Fold(setup, k, v, commits[..since])).Ok?
    ensures put.item == setup.jobs[c].fn(Fold(setup, k, v, commits[..since])).value[setup.attr := Numeral(v + since + 1)]
  {
    hide *;
    FairMeans(setup, k, v);
    PrefixSucceeds(setup, k, v, commits, since);
    FoldHasVersion(setup, k, v, commits[..since]);
    var before := Fold(setup, k, v, commits[..since]);
    PrepareMeans(setup, k, v, c, before, v + since);
    FnIsPolite(setup, k, v, c, before);
    WithVersion(setup.jobs[c].fn(before).value, setup.table.schema.key, setup.attr, v + since + 1);
  }

  /** Nobody commits twice. */
  lemma CommitsAreBounded(setup: Setup, commits: seq<nat>, c: nat)
    requires Orders(setup, commits) && c < |setup.jobs| && c !in commits
    ensures |commits| < |setup.jobs|
  {
    DistinctBelow(commits + [c], |setup.jobs|);
  }

  lemma {:induction false} DistinctBelow(s: seq<nat>, n: nat)
    requires forall i :: 0 <= i < |s| ==> s[i] < n
    requires forall i, j :: 0 <= i < j < |s| ==> s[i] != s[j]
    ensures |s| <= n
  {
    assert s != [] ==> 0 <= s[0] < n;
    if n == 0 {
    } else if i :| 0 <= i < |s| && s[i] == n - 1 {
      var t := s[..i] + s[i + 1..];
      assert forall j :: 0 <= j < |t| ==> t[j] == s[if j < i then j else j + 1];
      DistinctBelow(t, n - 1);
    } else {
      DistinctBelow(s, n - 1);
    }
  }

  // ---- Every step keeps the invariant ----

  /** After another client's successful put, a client has only fallen behind. */
  lemma CommitKeepsClient(setup: Setup, k: Key, v: int, commits: seq<nat>, d: nat, client: Client, calls: nat, c: nat)
    requires c < |setup.jobs| && d < |setup.jobs| && c != d && Get(setup.table, k).Some?
    requires Orders(setup, commits) && Orders(setup, commits + [c]) && ClientInv(setup, k, v, commits, d, client, calls)
    ensures ClientInv(setup, k, v, commits + [c], d, client, calls)
  {
    hide Prepare, Fold;
    assert forall i :: 0 <= i <= |commits| ==> (commits + [c])[..i] == commits[..i];
  }

  /** The parts of the invariant. */
  lemma InvMeans(setup: Setup, k: Key, v: int, w: World)
    requires Get(setup.table, k).Some? && Inv(setup, k, v, w)
    ensures Shaped(setup, w) && ValidTable(w.table) && |w.clients| == |w.calls| == |setup.jobs|
    ensures w.table.schema == setup.table.schema
    ensures Orders(setup, w.commits) && AllSucceed(setup, k, v, w.commits)
    ensures forall i :: 0 <= i < |w.commits| ==> w.commits[i] < |setup.jobs|
    ensures Get(w.table, k) == Some(Fold(setup, k, v, w.commits))
    ensures forall c :: 0 <= c < |w.clients| ==> ClientInv(setup, k, v, w.commits, c, w.clients[c], w.calls[c])
  {
    hide ClientInv, AllSucceed, Fold, Get, ValidTable;
  }

  lemma InvHolds(setup: Setup, k: Key, v: int, w: World)
    requires Get(setup.table, k).Some?
    requires Shaped(setup, w) && |w.clients| == |w.calls| == |setup.jobs| && w.table.schema == setup.table.schema
    requires Orders(setup, w.commits) && AllSucceed(setup, k, v, w.commits)
    requires forall i :: 0 <= i < |w.commits| ==> w.commits[i] < |setup.jobs|
    requires Get(w.table, k) == Some(Fold(setup, k, v, w.commits))
    requires forall c :: 0 <= c < |w.clients| ==> ClientInv(setup, k, v, w.commits, c, w.clients[c], w.calls[c])
    ensures Inv(setup, k, v, w)
  {
    hide ClientInv, AllSucceed, Fold, Get, ValidTable;
  }

  /** A step that changes one client only. */
  lemma ClientMoves(setup: Setup, k: Key, v: int, w: World, c: nat, client: Client, calls: nat)
    requires Get(setup.table, k).Some? && Inv(setup, k, v, w) && c < |w.clients| == |w.calls| == |setup.jobs| && Orders(setup, w.commits)
    requires ClientInv(setup, k, v, w.commits, c, client, calls)
    ensures Inv(setup, k, v, w.(clients := w.clients[c := client], calls := w.calls[c := calls]))
  {
    InvMeans(setup, k, v, w);
    hide ClientInv, AllSucceed, Fold, Get, ValidTable, Orders, Inv;
    InvHolds(setup, k, v, w.(clients := w.clients[c := client], calls := w.calls[c := calls]));
  }

  lemma FairMeans(setup: Setup, k: Key, v: int)
    requires Fair(setup, k, v)
    ensures ValidTable(setup.table) && Get(setup.table, k).Some? && AllIdentPart(setup.attr)
    ensures ExtractKey(setup.key, setup.table.schema.key) == Some(k) && NotAKey(setup.table.schema.key, setup.attr)
    ensures -TWO_53 <= v && v + |setup.jobs| <= TWO_53
  {
  }

  lemma AllSucceedGrows(setup: Setup, k: Key, v: int, commits: seq<nat>, c: nat)
    requires Get(setup.table, k).Some? && c < |setup.jobs| && Orders(setup, commits) && Orders(setup, commits + [c])
    requires AllSucceed(setup, k, v, commits) && setup.jobs[c].fn(Fold(setup, k, v, commits)).Ok?
    ensures AllSucceed(setup, k, v, commits + [c])
    ensures Fold(setup, k, v, commits + [c])
         == setup.jobs[c].fn(Fold(setup, k, v, commits)).value[setup.attr := Numeral(v + |commits| + 1)]
  {
    FoldOneMore(setup, k, v, commits, c);
    hide Fold;
    forall i | 0 <= i < |commits + [c]|
      ensures setup.jobs[(commits + [c])[i]].fn(Fold(setup, k, v, (commits + [c])[..i])).Ok?
    {
      assert (commits + [c])[..i] == commits[..i];
      assert i == |commits| ==> commits[..i] == commits;
    }
  }

  lemma FoldOneMore(setup: Setup, k: Key, v: int, commits: seq<nat>, c: nat)
    requires Get(setup.table, k).Some? && c < |setup.jobs| && Orders(setup, commits)
    requires setup.jobs[c].fn(Fold(setup, k, v, commits)).Ok?
    ensures forall i :: 0 <= i < |commits + [c]| ==> (commits + [c])[i] < |setup.jobs|
    ensures Fold(setup, k, v, commits + [c])
         == setup.jobs[c].fn(Fold(setup, k, v, commits)).value[setup.attr := Numeral(v + |commits| + 1)]
  {
    hide Numeral;
    assert (commits + [c])[..|commits|] == commits;
  }

  lemma OrdersGrow(setup: Setup, commits: seq<nat>, c: nat)
    requires Orders(setup, commits) && c < |setup.jobs| && c !in commits
    ensures Orders(setup, commits + [c])
    ensures forall i :: 0 <= i < |commits + [c]| ==> (commits + [c])[i] < |setup.jobs|
  {
  }

  lemma DoneHasCommitted(setup: Setup, k: Key, v: int, commits: seq<nat>, c: nat, calls: nat)
    requires c < |setup.jobs| && Get(setup.table, k).Some? && Orders(setup, commits) && c in commits
    requires calls <= setup.jobs[c].maxRetries + 1
    ensures ClientInv(setup, k, v, commits, c, Returned(NoError), calls)
  {
  }

  lemma CommitKeepsClients(setup: Setup, k: Key, v: int, commits: seq<nat>, clients: seq<Client>, calls: seq<nat>, c: nat)
    requires |clients| == |calls| == |setup.jobs| && c < |clients| && Get(setup.table, k).Some?
    requires Orders(setup, commits) && Orders(setup, commits + [c]) && calls[c] <= setup.jobs[c].maxRetries + 1
    requires forall d :: 0 <= d < |clients| ==> ClientInv(setup, k, v, commits, d, clients[d], calls[d])
    ensures forall d :: 0 <= d < |clients| ==> ClientInv(setup, k, v, commits + [c], d, clients[c := Returned(NoError)][d], calls[d])
  {
    hide *;
    forall d | 0 <= d < |clients|
      ensures ClientInv(setup, k, v, commits + [c], d, clients[c := Returned(NoError)][d], calls[d])
    {
      if d == c {
        DoneHasCommitted(setup, k, v, commits + [c], c, calls[c]);
      } else {
        CommitKeepsClient(setup, k, v, commits, d, clients[d], calls[d], c);
      }
    }
  }

  /** A put that goes through. */
  lemma CommitKeepsInv(setup: Setup, k: Key, v: int, w: World, c: nat, item: Item)
    requires Fair(setup, k, v) && Get(setup.table, k).Some? && Inv(setup, k, v, w)
    requires c < |w.clients| == |w.calls| == |setup.jobs| && c !in w.commits
    requires Orders(setup, w.commits) && ValidTable(w.table) && w.calls[c] <= setup.jobs[c].maxRetries + 1
    requires forall i :: 0 <= i < |w.commits| ==> w.commits[i] < |setup.jobs|
    requires setup.jobs[c].fn(Fold(setup, k, v, w.commits)).Ok?
    requires item == setup.jobs[c].fn(Fold(setup, k, v, w.commits)).value[setup.attr := Numeral(v + |w.commits| + 1)]
    ensures Inv(setup, k, v, World(Write(w.table, k, Some(item)), w.clients[c := Returned(NoError)], w.commits + [c], w.calls))
  {
    hide *;
    InvMeans(setup, k, v, w);
    var w' := World(Write(w.table, k, Some(item)), w.clients[c := Returned(NoError)], w.commits + [c], w.calls);
    OrdersGrow(setup, w.commits, c);
    AllSucceedGrows(setup, k, v, w.commits, c);
    WriteFinds(w.table, k, Some(item));
    CommitKeepsClients(setup, k, v, w.commits, w.clients, w.calls, c);
    StaysShaped(setup, w, w');
    InvHolds(setup, k, v, w');
  }

  lemma StaysShaped(setup: Setup, w: World, w': World)
    requires Shaped(setup, w) && |w'.clients| == |w.clients| && |w'.calls| == |w.calls| && ValidTable(w'.table)
    ensures Shaped(setup, w')
  {
  }

  lemma ReadyMeans(setup: Setup, k: Key, v: int, commits: seq<nat>, c: nat, client: Client, calls: nat)
    requires c < |setup.jobs| && Get(setup.table, k).Some? && Orders(setup, commits) && client.Ready?
    requires ClientInv(setup, k, v, commits, c, client, calls)
    ensures c !in commits && calls == client.attempt + 1 && client.attempt <= client.since <= |commits|
    ensures client.attempt <= setup.jobs[c].maxRetries
    ensures forall i :: 0 <= i < client.since ==> commits[..client.since][i] < |setup.jobs|
    ensures Prepare(setup.jobs[c].fn, Some(setup.attr), Fold(setup, k, v, commits[..client.since])) == Ok(client.put)
  {
    hide Prepare, Fold;
  }

  /** A put that does not: another client has committed since the read. */
  lemma ConflictKeepsClient(setup: Setup, k: Key, v: int, commits: seq<nat>, c: nat, client: Client, calls: nat)
    requires c < |setup.jobs| && Get(setup.table, k).Some? && Orders(setup, commits) && client.Ready?
    requires ClientInv(setup, k, v, commits, c, client, calls) && client.since < |commits|
    ensures ClientInv(setup, k, v, commits, c,
                      if client.attempt < setup.jobs[c].maxRetries then Idle(client.attempt + 1) else Returned(Conflict), calls)
  {
    hide Prepare, Fold;
  }

  lemma PutKeepsInv(setup: Setup, k: Key, v: int, w: World, c: nat)
    requires Fair(setup, k, v) && Get(setup.table, k).Some? && Inv(setup, k, v, w) && c < |w.clients| == |setup.jobs| == |w.calls|
    requires w.clients[c].Ready? && ValidTable(w.table)
    ensures w.clients[c].since <= |w.commits|
    ensures w.clients[c].since < |w.commits| ==> WriteOne(w.table, w.clients[c].put) == ConditionFailed
    ensures w.clients[c].since < |w.commits| ==>
      var client := if w.clients[c].attempt < setup.jobs[c].maxRetries then Idle(w.clients[c].attempt + 1) else Returned(Conflict);
      Inv(setup, k, v, w.(clients := w.clients[c := client], calls := w.calls[c := w.calls[c]]))
    ensures w.clients[c].since == |w.commits| ==>
      var r := WriteOne(w.table, w.clients[c].put);
      r.Done? && Inv(setup, k, v, World(r.t, w.clients[c := Returned(NoError)], w.commits + [c], w.calls))
  {
    hide *;
    InvMeans(setup, k, v, w);
    FairMeans(setup, k, v);
    var client, commits := w.clients[c], w.commits;
    ReadyMeans(setup, k, v, commits, c, client, w.calls[c]);
    CommitsAreBounded(setup, commits, c);
    ReadySends(setup, k, v, commits, c, client.since, client.put);
    FoldHasVersion(setup, k, v, commits);
    PutOutcome(w.table, k, setup.attr, v + |commits|, v + client.since, client.put.item);
    if client.since == |commits| {
      assert commits[..|commits|] == commits;
      CommitKeepsInv(setup, k, v, w, c, client.put.item);
    } else {
      ConflictKeepsClient(setup, k, v, commits, c, client, w.calls[c]);
      ClientMoves(setup, k, v, w, c, if client.attempt < setup.jobs[c].maxRetries then Idle(client.attempt + 1) else Returned(Conflict), w.calls[c]);
    }
  }

  lemma ReadFindsTheFold(t: Table, key: Item, k: Key, item: Item)
    requires ExtractKey(key, t.schema.key) == Some(k) && Get(t, k) == Some(item)
    ensures ReadOne(t, key) == Ok(Some(item))
  {
  }

  lemma ReadKeepsClient(setup: Setup, k: Key, v: int, commits: seq<nat>, c: nat, client: Client, calls: nat, item: Item)
    requires c < |setup.jobs| && Get(setup.table, k).Some? && Orders(setup, commits) && client.Idle?
    requires ClientInv(setup, k, v, commits, c, client, calls) && item == Fold(setup, k, v, commits) && item != map[]
    ensures ClientInv(setup, k, v, commits, c, AfterRead(setup.jobs[c], client.attempt, Ok(Some(item)), |commits|), calls)
  {
    hide Prepare, Fold;
    assert commits[..|commits|] == commits;
  }

  lemma CallKeepsClient(setup: Setup, k: Key, v: int, commits: seq<nat>, c: nat, client: Client, calls: nat)
    requires c < |setup.jobs| && Get(setup.table, k).Some? && Orders(setup, commits) && client.Got?
    requires ClientInv(setup, k, v, commits, c, client, calls)
    ensures ClientInv(setup, k, v, commits, c,
                      AfterCall(setup.jobs[c], client.attempt, Prepare(setup.jobs[c].fn, Some(setup.attr), client.item), client.since), calls + 1)
  {
    hide Prepare, Fold;
  }

  /** The cases of Act. */
  lemma ActCases(setup: Setup, w: World, c: nat)
    requires Shaped(setup, w) && c < |w.clients| && Act(setup, w, c).Some?
    ensures |w.clients| == |w.calls| == |setup.jobs| && ValidTable(w.table)
    ensures w.calls[c := w.calls[c]] == w.calls
    ensures var job, w' := setup.jobs[c], Act(setup, w, c).value;
      match w.clients[c]
      case Idle(attempt) =>
        w' == w.(clients := w.clients[c := AfterRead(job, attempt, ReadOne(w.table, setup.key), |w.commits|)], calls := w.calls[c := w.calls[c]])
      case Got(attempt, item, since) =>
        w' == w.(clients := w.clients[c := AfterCall(job, attempt, Prepare(job.fn, Some(setup.attr), item), since)],
                 calls := w.calls[c := w.calls[c] + 1])
      case Ready(attempt, put, since) => (
        match WriteOne(w.table, put)
        case Done(t) => w' == World(t, w.clients[c := Returned(NoError)], w.commits + [c], w.calls)
        case ConditionFailed =>
          w' == w.(clients := w.clients[c := if attempt < job.maxRetries then Idle(attempt + 1) else Returned(Conflict)], calls := w.calls[c := w.calls[c]])
        case Error => true)
      case Returned(_) => false
  {
    hide WriteOne, ReadOne, Prepare, AfterRead, AfterCall, ValidTable;
    assert w.calls[c := w.calls[c]] == w.calls;
  }

  lemma ItemIsNotEmpty(item: Item, attr: string, v: int)
    requires HasVersion(item, attr, v)
    ensures item != map[]
  {
  }

  lemma ActKeepsInv(setup: Setup, k: Key, v: int, w: World, c: nat)
    requires Fair(setup, k, v) && Get(setup.table, k).Some? && Inv(setup, k, v, w) && Shaped(setup, w) && c < |w.clients|
    requires Act(setup, w, c).Some?
    ensures Inv(setup, k, v, Act(setup, w, c).value)
  {
    hide *;
    InvMeans(setup, k, v, w);
    FairMeans(setup, k, v);
    ActCases(setup, w, c);
    var client := w.clients[c];
    match client
    case Idle(attempt) =>
      var item := Fold(setup, k, v, w.commits);
      AllBounded(setup, w.commits);
      FoldHasVersion(setup, k, v, w.commits);
      ItemIsNotEmpty(item, setup.attr, v + |w.commits|);
      ReadFindsTheFold(w.table, setup.key, k, item);
      ReadKeepsClient(setup, k, v, w.commits, c, client, w.calls[c], item);
      ClientMoves(setup, k, v, w, c, AfterRead(setup.jobs[c], attempt, Ok(Some(item)), |w.commits|), w.calls[c]);
    case Got(attempt, item, since) =>
      CallKeepsClient(setup, k, v, w.commits, c, client, w.calls[c]);
      ClientMoves(setup, k, v, w, c, AfterCall(setup.jobs[c], attempt, Prepare(setup.jobs[c].fn, Some(setup.attr), item), since), w.calls[c] + 1);
    case Ready(attempt, put, since) =>
      PutKeepsInv(setup, k, v, w, c);
    case Returned(_) =>
  }

  lemma AllBounded(setup: Setup, commits: seq<nat>)
    requires Orders(setup, commits)
    ensures |commits| <= |setup.jobs|
  {
    DistinctBelow(commits, |setup.jobs|);
  }

  lemma OtherWriteKeepsInv(setup: Setup, k: Key, v: int, w: World, w': World)
    requires Fair(setup, k, v) && Get(setup.table, k).Some? && Inv(setup, k, v, w) && ValidTable(w.table) && OtherWrite(setup, w, w')
    ensures Inv(setup, k, v, w')
  {
    InvMeans(setup, k, v, w);
    FairMeans(setup, k, v);
    var l, newItem :| Some(l) != ExtractKey(setup.key, setup.table.schema.key) && w' == w.(table := Write(w.table, l, newItem));
    hide *;
    WriteFinds(w.table, l, newItem);
    StaysShaped(setup, w, w');
    InvHolds(setup, k, v, w');
  }

  lemma StartInv(setup: Setup, k: Key, v: int)
    requires Fair(setup, k, v) && Get(setup.table, k).Some?
    ensures Inv(setup, k, v, Start(setup))
  {
    hide ValidTable, ExtractKey, Polite, Prepare;
  }

  lemma {:induction false} RunsKeepInv(setup: Setup, k: Key, v: int, run: seq<World>, n: nat)
    requires Fair(setup, k, v) && Get(setup.table, k).Some? && Interleaving(setup, run) && n < |run|
    ensures Inv(setup, k, v, run[n])
  {
    hide Inv, Act, Fair, Shaped, Start, Get, OtherWrite;
    if n == 0 {
      StartInv(setup, k, v);
    } else {
      RunsKeepInv(setup, k, v, run, n - 1);
      assert Next(setup, run[n - 1], run[n]);
      InvMeans(setup, k, v, run[n - 1]);
      if OtherWrite(setup, run[n - 1], run[n]) {
        OtherWriteKeepsInv(setup, k, v, run[n - 1], run[n]);
      } else {
        var c: nat :| c < |run[n - 1].clients| && Act(setup, run[n - 1], c) == Some(run[n]);
        ActKeepsInv(setup, k, v, run[n - 1], c);
      }
    }
  }

  /** No lost updates. At every moment of every interleaving the stored item is the
      fold of the functions of the clients whose puts succeeded, in the order of the
      puts, and its version is the initial one plus their number. A client returns
      nil exactly when it is one of them, once; and nobody calls fn more than
      maxRetries + 1 times. */
  lemma NoLostUpdates(setup: Setup, k: Key, v: int, run: seq<World>, n: nat)
    requires Fair(setup, k, v) && Get(setup.table, k).Some? && Interleaving(setup, run) && n < |run|
    ensures var w := run[n];
      && |w.clients| == |w.calls| == |setup.jobs|
      && Orders(setup, w.commits)
      && Get(w.table, k) == Some(Fold(setup, k, v, w.commits))
      && HasVersion(Get(w.table, k).value, setup.attr, v + |w.commits|)
      && forall c :: 0 <= c < |w.clients| ==>
           && (w.clients[c] == Returned(NoError) <==> c in w.commits)
           && (w.calls[c] == 0 || w.calls[c] <= setup.jobs[c].maxRetries + 1)
  {
    hide *;
    var w := run[n];
    RunsKeepInv(setup, k, v, run, n);
    InvMeans(setup, k, v, w);
    AllBounded(setup, w.commits);
    FoldHasVersion(setup, k, v, w.commits);
    forall c | 0 <= c < |w.clients|
      ensures (w.clients[c] == Returned(NoError) <==> c in w.commits) && (w.calls[c] == 0 || w.calls[c] <= setup.jobs[c].maxRetries + 1)
    {
      ClientInvMeans(setup, k, v, w.commits, c, w.clients[c], w.calls[c]);
    }
  }

  lemma ClientInvMeans(setup: Setup, k: Key, v: int, commits: seq<nat>, c: nat, client: Client, calls: nat)
    requires c < |setup.jobs| && Get(setup.table, k).Some? && Orders(setup, commits)
    requires ClientInv(setup, k, v, commits, c, client, calls)
    ensures client == Returned(NoError) <==> c in commits
    ensures calls == 0 || calls <= setup.jobs[c].maxRetries + 1
    ensures client == Returned(Conflict) ==> setup.jobs[c].maxRetries < |commits|
    ensures client.Returned? ==> client.verdict != NotFound && client.verdict != BackendError
  {
    hide Prepare, Fold;
  }

  /** A client that may retry as often as there are other clients never comes back
      with a failed condition: every conflict is somebody else's success. */
  lemma EnoughRetriesSucceed(setup: Setup, k: Key, v: int, run: seq<World>, n: nat, c: nat)
    requires Fair(setup, k, v) && Get(setup.table, k).Some? && Interleaving(setup, run) && n < |run|
    requires c < |setup.jobs| == |run[n].clients| && setup.jobs[c].maxRetries >= |setup.jobs| - 1
    ensures run[n].clients[c].Returned? ==> run[n].clients[c].verdict == NoError || run[n].clients[c].verdict == FnFailed
  {
    hide *;
    var w := run[n];
    RunsKeepInv(setup, k, v, run, n);
    InvMeans(setup, k, v, w);
    ClientInvMeans(setup, k, v, w.commits, c, w.clients[c], w.calls[c]);
    if w.clients[c] == Returned(Conflict) {
      CommitsAreBounded(setup, w.commits, c);
    }
  }

  // ---- Where float64 stops telling versions apart ----

  lemma Float64At53()
    ensures Float64(TWO_53 + 1) == Float64(TWO_53)
  {
    assert Spacing(TWO_53 + 1, 1) == 2;
    assert Spacing(TWO_53, 1) == 1;
  }

  /** At version 2^53 the check lets a stale put through: of two clients that read the
      same item, both succeed, and nothing of the first one's item is left. */
  lemma LostUpdateAt53(t: Table, k: Key, attr: string, first: Item, second: Item)
    requires ValidTable(t) && AllIdentPart(attr)
    requires Get(t, k).Some? && HasVersion(Get(t, k).value, attr, TWO_53)
    requires ExtractKey(first, t.schema.key) == Some(k) && HasVersion(first, attr, TWO_53 + 1)
    requires ExtractKey(second, t.schema.key) == Some(k) && HasVersion(second, attr, TWO_53 + 1)
    ensures var cond := VersionCondition(attr, TWO_53);
      var u := Write(t, k, Some(first));
      && WriteOne(t, Put(first, cond.expression, cond.Environment())) == Done(u)
      && WriteOne(u, Put(second, cond.expression, cond.Environment())) == Done(Write(u, k, Some(second)))
      && Get(Write(u, k, Some(second)), k) == Some(second)
  {
    hide VersionCondition, EvalCondition, Write, ExtractKey, Float64, Get, HasVersion, ValidTable;
    var u := Write(t, k, Some(first));
    WriteFinds(t, k, Some(first));
    WriteFinds(u, k, Some(second));
    VersionCheckIff(attr, TWO_53, Get(t, k).value);
    VersionCheckIff(attr, TWO_53, first);
    Float64At53();
  }

  /** An item without the version attribute can never be updated: its version reads
      as 0, but the check "version = 0" is false on it. */
  lemma UnversionedItemsConflict(t: Table, k: Key, attr: string, item: Item, v: int)
    requires ValidTable(t) && AllIdentPart(attr) && ExtractKey(item, t.schema.key) == Some(k)
    requires Get(t, k).Some? && attr !in Get(t, k).value
    ensures Version(Get(t, k).value, attr) == Ok(0)
    ensures var cond := VersionCondition(attr, v);
      WriteOne(t, Put(item, cond.expression, cond.Environment())) == ConditionFailed
  {
    VersionCheckIff(attr, v, Get(t, k).value);
    hide VersionCondition, EvalCondition, Write, ExtractKey;
  }
}
