/** What writes and write transactions do (memdb/memdb.go), read off by reads, and what
    their conditions guard. */
module RequestLaws {
  import opened Base
  import opened Values
  import opened Store
  import opened Parser
  import opened Requests
  import Backend
  import Phrases
  import ConditionMeaning
  import EvalMeaning
  import UpdateEval
  import Projection

  // ---- Single writes ----

  /** Item and key that a write is about. */
  function About(op: Op): Item { if op.Put? then op.item else op.key }

  /** A read of another item is not affected. */
  ghost predicate OthersStay(before: Table, after: Table, about: Item) {
    forall key :: ReadOne(before, key).Ok? && ExtractKey(key, before.schema.key) != ExtractKey(about, before.schema.key) ==>
      ReadOne(after, key) == ReadOne(before, key)
  }

  /** What has been put is read. */
  lemma PutIsRead(t: Table, item: Item, cond: string, env: Env)
    requires ValidTable(t) && WriteOne(t, Put(item, cond, env)).Done?
    ensures var u := WriteOne(t, Put(item, cond, env)).t;
      ReadOne(u, item) == Ok(Some(item)) && OthersStay(t, u, item)
  {
    WriteFinds(t, ExtractKey(item, t.schema.key).value, Some(item));
    hide EvalCondition, ExtractKey, Find, Insert, Erase, Reindex;
  }

  /** What has been deleted is not there. */
  lemma DeleteIsRead(t: Table, key: Item, cond: string, env: Env)
    requires ValidTable(t) && WriteOne(t, Delete(key, cond, env)).Done?
    ensures var u := WriteOne(t, Delete(key, cond, env)).t;
      ReadOne(u, key) == Ok(None) && OthersStay(t, u, key)
  {
    WriteFinds(t, ExtractKey(key, t.schema.key).value, None);
    hide EvalCondition, ExtractKey, Find, Insert, Erase, Reindex;
  }

  /** An update changes the item that is read at the key, or else the key attributes. */
  lemma UpdateIsRead(t: Table, key: Item, update: string, cond: string, env: Env)
    requires ValidTable(t) && WriteOne(t, Update(key, update, cond, env)).Done?
    ensures var u := WriteOne(t, Update(key, update, cond, env)).t;
      && ReadOne(t, key).Ok? && OthersStay(t, u, key)
      && (ReadOne(t, key).value.Some? ==> ReadOne(u, key) == Ok(Outcome(UpdateEval.ApplyUpdate(update, env, ReadOne(t, key).value.value))))
      && (ReadOne(t, key).value.None? ==> ReadOne(u, key) == Ok(Outcome(UpdateEval.ApplyUpdate(update, env, key))))
  {
    var k := ExtractKey(key, t.schema.key).value;
    hide EvalCondition, ExtractKey, Find, Insert, Erase, Reindex, UpdateEval.ApplyUpdate;
    WriteFinds(t, k, Some(Updated(t, k, Update(key, update, cond, env)).value));
  }

  function Outcome(r: Result<Item>): Option<Item> { match r case Ok(item) => Some(item) case Err => None }

  /** The condition is about the item that is read at the key, or about an empty one. */
  lemma ConditionIsRead(t: Table, op: Op)
    requires ValidTable(t) && !op.Check?
    ensures WriteOne(t, op).ConditionFailed? <==>
      ReadOne(t, About(op)).Ok? && EvalCondition(op.cond, op.env, OrEmpty(ReadOne(t, About(op)).value)) == Ok(false)
    ensures WriteOne(t, op).Done? ==>
      ReadOne(t, About(op)).Ok? && EvalCondition(op.cond, op.env, OrEmpty(ReadOne(t, About(op)).value)) == Ok(true)
    ensures op.Put? || op.Delete? ==> (WriteOne(t, op).Done? <==>
      ReadOne(t, About(op)).Ok? && EvalCondition(op.cond, op.env, OrEmpty(ReadOne(t, About(op)).value)) == Ok(true))
  {
    hide EvalCondition, ExtractKey, Find, Write, UpdateEval.ApplyUpdate;
  }

  /** Without a condition a put or delete goes through exactly when its key is whole. */
  lemma Unconditional(t: Table, item: Item, env: Env)
    requires ValidTable(t)
    ensures WriteOne(t, Put(item, "", env)).Done? <==> ReadOne(t, item).Ok?
    ensures WriteOne(t, Delete(item, "", env)).Done? <==> ReadOne(t, item).Ok?
    ensures UpdateEval.ApplyUpdate("", env, item) == Ok(item)
  {
    hide ExtractKey, Find, Write;
  }

  /** Put if absent: with `attribute_not_exists` of the hash attribute, a put goes through
      exactly when nothing is stored under its key. */
  lemma PutIfAbsent(t: Table, item: Item, alias: string, env: Env)
    requires ValidTable(t) && AtHome(t) && ReadOne(t, item).Ok?
    requires Phrases.GoodTok(alias) && alias[0] == '#' && Lookup(env.names, alias) == Some(t.schema.key.hash) && '.' !in t.schema.key.hash
    ensures WriteOne(t, Put(item, "attribute_not_exists(" + alias + ")", env)).Done? <==> ReadOne(t, item) == Ok(None)
    ensures WriteOne(t, Put(item, "attribute_not_exists(" + alias + ")", env)).ConditionFailed? <==> ReadOne(t, item).value.Some?
  {
    var op := Put(item, "attribute_not_exists(" + alias + ")", env);
    var stored := OrEmpty(ReadOne(t, item).value);
    ConditionIsRead(t, op);
    ConditionMeaning.ExistsConditions(alias, [t.schema.key.hash], env, stored);
    HashIsThere(t, item);
    TopLevel(t.schema.key.hash, stored);
    hide EvalCondition, ExtractKey, Get, EvalMeaning.Through, AtHome, WriteOne, Phrases.GoodTok;
  }

  lemma HashIsThere(t: Table, key: Item)
    requires AtHome(t) && ReadOne(t, key).Ok?
    ensures ReadOne(t, key).value.Some? <==> t.schema.key.hash in OrEmpty(ReadOne(t, key).value)
  {
    hide Find;
  }

  lemma TopLevel(name: string, item: Item)
    ensures (exists v, maps :: EvalMeaning.Through(maps, [name], item, v)) <==> name in item
  {
    if name in item {
      EvalMeaning.ResolveIff([name], item, item[name]);
    }
  }

  /** ALL_NEW is what is read after the update, ALL_OLD what is read before. */
  lemma AttributesAreRead(t: Table, u: Table, key: Item)
    requires ReadOne(t, key).Ok? && u.schema == t.schema
    ensures Backend.Attributes(Backend.ReturnAllNew, t, u, key) == ReadOne(u, key).value
    ensures Backend.Attributes(Backend.ReturnAllOld, t, u, key) == ReadOne(t, key).value
    ensures Backend.Attributes(Backend.ReturnNone, t, u, key) == None
  {
    hide ExtractKey, Find;
  }

  // ---- Conditions of transactions ----

  /** The same condition on the same item, guarding a delete by itself. */
  function Guard(db: Database, r: Request): WriteResult
    requires ValidDatabase(db) && r.table in db
  {
    WriteOne(db[r.table], Delete(About(r.op), r.op.cond, r.op.env))
  }

  lemma GuardIsCondition(db: Database, r: Request)
    requires ValidDatabase(db) && r.table in db
    ensures ConditionIs(db, r, false) <==> r.op.cond != "" && Guard(db, r).ConditionFailed?
    ensures ConditionErrs(db, r) <==> r.op.cond != "" && Guard(db, r).Error?
    ensures Guard(db, r).ConditionFailed? ==> r.op.cond != ""
  {
    hide ExtractKey, Find, Write, ParseExpression;
  }

  /** In a transaction every condition, those of condition checks among them, guards as it
      guards a single write: the transaction is refused exactly when one of them cannot be
      evaluated, and otherwise cancelled exactly when one fails, for just those reasons. */
  lemma ConditionsGuard(db: Database, rs: seq<Request>)
    requires ValidDatabase(db) && Resolved(db, rs)
    ensures TransactWrite(db, rs).Rejected? <==> exists i :: 0 <= i < |rs| && rs[i].op.cond != "" && Guard(db, rs[i]).Error?
    ensures TransactWrite(db, rs).Cancelled? ==>
      && |TransactWrite(db, rs).reasons| == |rs|
      && forall i :: 0 <= i < |rs| ==> (TransactWrite(db, rs).reasons[i] <==> Guard(db, rs[i]).ConditionFailed?)
    ensures TransactWrite(db, rs).Cancelled? <==>
      !TransactWrite(db, rs).Rejected? && exists i :: 0 <= i < |rs| && Guard(db, rs[i]).ConditionFailed?
  {
    CancelledIff(db, rs);
    FirstPassMeans(db, rs);
    forall i | 0 <= i < |rs|
      ensures ConditionIs(db, rs[i], false) <==> Guard(db, rs[i]).ConditionFailed?
      ensures ConditionErrs(db, rs[i]) <==> rs[i].op.cond != "" && Guard(db, rs[i]).Error?
    {
      GuardIsCondition(db, rs[i]);
    }
    hide FirstPass, ApplyAll, ConditionIs, ConditionErrs, Guard;
  }

  /** A condition check in front of a transaction: when the condition fails by itself, the
      transaction is cancelled and nothing is written; when it holds, the check changes
      nothing but the list of reasons. */
  lemma CheckGuards(db: Database, n: string, key: Item, cond: string, env: Env, rs: seq<Request>)
    requires ValidDatabase(db) && n in db && |rs| < 100 && forall i :: 0 <= i < |rs| ==> rs[i].table in db
    ensures var (guard, rest, all) := (WriteOne(db[n], Delete(key, cond, env)), TransactWrite(db, rs), TransactWrite(db, [Request(n, Check(key, cond, env))] + rs));
      && (guard.ConditionFailed? && !rest.Rejected? ==> all.Cancelled? && |all.reasons| == |rs| + 1 && all.reasons[0] && After(db, all) == db)
      && (guard.Done? ==> all == match rest case Cancelled(reasons) => Cancelled([false] + reasons) case other => other)
      && (guard.Error? && cond != "" ==> all.Rejected?)
  {
    var r := Request(n, Check(key, cond, env));
    GuardIsCondition(db, r);
    hide *;
    GuardOfCheck(db, n, key, cond, env);
    CheckInFront(db, r, rs);
  }

  lemma GuardOfCheck(db: Database, n: string, key: Item, cond: string, env: Env)
    requires ValidDatabase(db) && n in db
    ensures var (r, guard) := (Request(n, Check(key, cond, env)), WriteOne(db[n], Delete(key, cond, env)));
      && r.table == n && r.op.Check? && r.op.cond == cond && Guard(db, r) == guard
      && (guard.ConditionFailed? ==> Condition(db[n], r.op) == Ok(false))
      && (guard.Done? ==> Condition(db[n], r.op) == Ok(true))
      && (guard.Error? && cond != "" ==> Condition(db[n], r.op) == Err)
  {
    GuardIsCondition(db, Request(n, Check(key, cond, env)));
    hide Condition, WriteOne;
  }

  /** What a check adds to a transaction, by its condition. */
  lemma CheckInFront(db: Database, r: Request, rs: seq<Request>)
    requires ValidDatabase(db) && r.table in db && r.op.Check? && |rs| < 100 && forall i :: 0 <= i < |rs| ==> rs[i].table in db
    ensures var (rest, all) := (TransactWrite(db, rs), TransactWrite(db, [r] + rs));
      match Condition(db[r.table], r.op)
      case Err => all.Rejected?
      case Ok(true) => all == (match rest case Cancelled(reasons) => Cancelled([false] + reasons) case other => other)
      case Ok(false) => !rest.Rejected? ==> all.Cancelled? && |all.reasons| == |rs| + 1 && all.reasons[0] && After(db, all) == db
  {
    var all := [r] + rs;
    OneMoreResolved(db, r, rs);
    hide *;
    CheckPasses(db, r, rs);
    FirstPassHead(db, r, rs);
    Decides(db, rs);
    Decides(db, all);
    HeadDecides(Condition(db[r.table], r.op), FirstPass(db, rs), ApplyAll(db, rs));
    if TransactWrite(db, rs) != Rejected && TransactWrite(db, all).Cancelled? {
      FirstPassLength(db, rs);
      NothingChanges(db, TransactWrite(db, all));
    }
  }

  function Decide(first: Result<seq<bool>>, p: Progress): TxResult {
    match first
    case Err => Rejected
    case Ok(reasons) => if true in reasons then Cancelled(reasons) else if p.ok then Committed(p.db) else Broken(p.db)
  }

  lemma OneMoreResolved(db: Database, r: Request, rs: seq<Request>)
    requires r.table in db && |rs| < 100 && forall i :: 0 <= i < |rs| ==> rs[i].table in db
    ensures Resolved(db, rs) && Resolved(db, [r] + rs)
  {
    assert forall i :: 0 < i < |[r] + rs| ==> ([r] + rs)[i] == rs[i - 1];
  }

  lemma Decides(db: Database, rs: seq<Request>)
    requires ValidDatabase(db) && Resolved(db, rs)
    ensures forall i :: 0 <= i < |rs| ==> rs[i].table in db
    ensures TransactWrite(db, rs) == Decide(FirstPass(db, rs), ApplyAll(db, rs))
  {
    hide FirstPass, ApplyAll, ValidDatabase;
  }

  lemma HeadDecides(c: Result<bool>, first: Result<seq<bool>>, p: Progress)
    ensures var (rest, all) := (Decide(first, p), Decide(match c case Err => Err case Ok(holds) => Prepend([!holds], first), p));
      match c
      case Err => all.Rejected?
      case Ok(true) => all == (match rest case Cancelled(reasons) => Cancelled([false] + reasons) case other => other)
      case Ok(false) => !rest.Rejected? ==> first.Ok? && all == Cancelled([true] + first.value)
  {
    if first.Ok? {
      FalseInFront(first.value);
    }
  }

  lemma FirstPassLength(db: Database, rs: seq<Request>)
    requires forall i :: 0 <= i < |rs| ==> rs[i].table in db
    ensures FirstPass(db, rs).Ok? ==> |FirstPass(db, rs).value| == |rs|
  {
    FirstPassMeans(db, rs);
  }

  lemma NothingChanges(db: Database, r: TxResult)
    requires r.Cancelled?
    ensures After(db, r) == db
  {
  }

  lemma FirstPassHead(db: Database, r: Request, rs: seq<Request>)
    requires r.table in db && forall i :: 0 <= i < |rs| ==> rs[i].table in db
    ensures FirstPass(db, [r] + rs) == match Condition(db[r.table], r.op)
      case Err => Err
      case Ok(holds) => Prepend([!holds], FirstPass(db, rs))
  {
    hide Condition;
    assert ([r] + rs)[1..] == rs;
  }

  lemma CheckPasses(db: Database, r: Request, rs: seq<Request>)
    requires ValidDatabase(db) && r.table in db && r.op.Check?
    ensures ApplyAll(db, [r] + rs) == ApplyAll(db, rs)
  {
    ApplyAllStep(db, r, rs);
    assert db[r.table := db[r.table]] == db;
    hide ApplyAll;
  }

  lemma FalseInFront(reasons: seq<bool>)
    ensures true in [false] + reasons <==> true in reasons
    ensures true in [true] + reasons && ([true] + reasons)[0] && |[true] + reasons| == |reasons| + 1
  {
  }

  // ---- Read transactions ----

  ghost predicate BadRead(db: Database, get: Read) { get.table !in db || ReadOne(db[get.table], get.key).Err? }

  /** A read transaction gives what each read by itself gives, projected; it is an error
      exactly when one of them is, or when there are more than 100. */
  lemma {:induction false} ReadsTogether(db: Database, gets: seq<Read>)
    requires forall i :: 0 <= i < |gets| ==> gets[i].table in db
    ensures ReadAll(db, gets).Err? <==> exists i :: 0 <= i < |gets| && BadRead(db, gets[i])
    ensures ReadAll(db, gets).Ok? ==> |ReadAll(db, gets).value| == |gets|
    ensures ReadAll(db, gets).Ok? ==> forall i :: 0 <= i < |gets| ==>
      ReadAll(db, gets).value[i] == ProjectedRead(ReadOne(db[gets[i].table], gets[i].key), gets[i])
  {
    hide ReadOne;
    if gets != [] {
      ReadsTogether(db, gets[1..]);
      assert forall i :: 0 < i < |gets| ==> gets[i] == gets[1..][i - 1];
      if i :| 0 <= i < |gets| && BadRead(db, gets[i]) {
        assert i == 0 || BadRead(db, gets[1..][i - 1]);
      }
    }
  }

  function ProjectedRead(r: Result<Option<Item>>, get: Read): Option<Item> {
    match r case Ok(Some(item)) => Some(Projection.Projected(item, get.projection, get.names)) case _ => None
  }

  lemma TransactGetReads(db: Database, gets: seq<Read>)
    ensures TransactGet(db, gets).Err? <==> |gets| > 100 || exists i :: 0 <= i < |gets| && BadRead(db, gets[i])
    ensures TransactGet(db, gets).Ok? ==> |TransactGet(db, gets).value| == |gets| && forall i :: 0 <= i < |gets| ==>
      gets[i].table in db && TransactGet(db, gets).value[i] == ProjectedRead(ReadOne(db[gets[i].table], gets[i].key), gets[i])
  {
    if forall i :: 0 <= i < |gets| ==> gets[i].table in db {
      ReadsTogether(db, gets);
    } else {
      var i :| 0 <= i < |gets| && gets[i].table !in db;
      assert BadRead(db, gets[i]);
    }
    hide ReadOne, ReadAll, ProjectedRead;
  }

  // ---- What a transaction leaves behind ----

  /** The request writes to this place. */
  predicate WritesTo(db: Database, r: Request, n: string, k: Key) {
    r.table == n && n in db && !r.op.Check? && Target(db[n], r.op) == Some(k)
  }

  lemma OneWrite(db: Database, r: Request, n: string, k: Key)
    requires ValidDatabase(db) && n in db && ApplyOne(db, r).Ok?
    ensures n in ApplyOne(db, r).value && ApplyOne(db, r).value[n].schema == db[n].schema
    ensures !WritesTo(db, r, n, k) ==> Get(ApplyOne(db, r).value[n], k) == Get(db[n], k)
    ensures WritesTo(db, r, n, k) && r.op.Put? ==> Get(ApplyOne(db, r).value[n], k) == Some(r.op.item)
    ensures WritesTo(db, r, n, k) && r.op.Delete? ==> Get(ApplyOne(db, r).value[n], k) == None
    ensures WritesTo(db, r, n, k) && r.op.Update? ==> Updated(db[n], k, r.op).Ok? && Get(ApplyOne(db, r).value[n], k) == Some(Updated(db[n], k, r.op).value)
  {
    hide Find, Insert, Erase, Reindex, ExtractKey, UpdateEval.ApplyUpdate;
    if r.table == n && !r.op.Check? {
      var l := Target(db[n], r.op).value;
      match r.op
      case Put(item, _, _) => WriteFinds(db[n], l, Some(item));
      case Delete(_, _, _) => WriteFinds(db[n], l, None);
      case Update(_, _, _, _) => WriteFinds(db[n], l, Some(Updated(db[n], l, r.op).value));
    }
  }

  lemma SameTargets(db: Database, r: Request, s: Request, n: string, k: Key)
    requires ValidDatabase(db) && n in db && ApplyOne(db, r).Ok?
    ensures WritesTo(ApplyOne(db, r).value, s, n, k) <==> WritesTo(db, s, n, k)
  {
    OneWrite(db, r, n, k);
    hide ApplyOne, ExtractKey;
  }

  /** No request writes there: it is as before. */
  lemma {:induction false} Untouched(db: Database, rs: seq<Request>, n: string, k: Key)
    requires ValidDatabase(db) && n in db && ApplyAll(db, rs).ok && forall i :: 0 <= i < |rs| ==> !WritesTo(db, rs[i], n, k)
    ensures Get(ApplyAll(db, rs).db[n], k) == Get(db[n], k)
    decreases |rs|
  {
    hide ApplyOne, WritesTo, ValidDatabase, Get;
    if rs != [] {
      var next := ApplyOne(db, rs[0]).value;
      OneWrite(db, rs[0], n, k);
      forall i | 0 <= i < |rs[1..]|
        ensures !WritesTo(next, rs[1..][i], n, k)
      {
        SameTargets(db, rs[0], rs[i + 1], n, k);
      }
      Untouched(next, rs[1..], n, k);
    }
  }

  /** The last request that writes there, a put or a delete, decides. */
  lemma {:induction false} LastWriteStays(db: Database, rs: seq<Request>, n: string, k: Key, i: nat)
    requires ValidDatabase(db) && n in db && ApplyAll(db, rs).ok && i < |rs| && WritesTo(db, rs[i], n, k)
    requires forall j :: i < j < |rs| ==> !WritesTo(db, rs[j], n, k)
    ensures rs[i].op.Put? ==> Get(ApplyAll(db, rs).db[n], k) == Some(rs[i].op.item)
    ensures rs[i].op.Delete? ==> Get(ApplyAll(db, rs).db[n], k) == None
    decreases |rs|
  {
    hide ApplyOne, WritesTo, ValidDatabase, Get;
    var next := ApplyOne(db, rs[0]).value;
    OneWrite(db, rs[0], n, k);
    forall j | 0 <= j < |rs[1..]|
      ensures WritesTo(next, rs[1..][j], n, k) <==> WritesTo(db, rs[j + 1], n, k)
    {
      SameTargets(db, rs[0], rs[j + 1], n, k);
    }
    if i == 0 {
      Untouched(next, rs[1..], n, k);
    } else {
      LastWriteStays(next, rs[1..], n, k, i - 1);
    }
  }

  /** What a committed transaction leaves at every key: the item of its last put there,
      nothing after a delete, and what was there before where it does not write. */
  lemma CommittedReads(db: Database, rs: seq<Request>, n: string, k: Key)
    requires ValidDatabase(db) && n in db && TransactWrite(db, rs).Committed?
    ensures n in TransactWrite(db, rs).db
    ensures (forall i :: 0 <= i < |rs| ==> !WritesTo(db, rs[i], n, k)) ==> Get(TransactWrite(db, rs).db[n], k) == Get(db[n], k)
    ensures forall i :: 0 <= i < |rs| && WritesTo(db, rs[i], n, k) && (forall j :: i < j < |rs| ==> !WritesTo(db, rs[j], n, k)) ==>
      && (rs[i].op.Put? ==> Get(TransactWrite(db, rs).db[n], k) == Some(rs[i].op.item))
      && (rs[i].op.Delete? ==> Get(TransactWrite(db, rs).db[n], k) == None)
  {
    hide ApplyAll, FirstPass, WritesTo, Get, ValidDatabase;
    if forall i :: 0 <= i < |rs| ==> !WritesTo(db, rs[i], n, k) {
      Untouched(db, rs, n, k);
    }
    forall i | 0 <= i < |rs| && WritesTo(db, rs[i], n, k) && (forall j :: i < j < |rs| ==> !WritesTo(db, rs[j], n, k))
      ensures rs[i].op.Put? ==> Get(TransactWrite(db, rs).db[n], k) == Some(rs[i].op.item)
      ensures rs[i].op.Delete? ==> Get(TransactWrite(db, rs).db[n], k) == None
    {
      LastWriteStays(db, rs, n, k, i);
    }
  }

  // ---- Limits, and batches ----

  /** More than 100 requests, or one for a table that there is not, are refused. */
  lemma TooManyAreRefused(db: Database, rs: seq<Request>)
    requires ValidDatabase(db)
    ensures |rs| > 100 || (exists i :: 0 <= i < |rs| && rs[i].table !in db) ==> TransactWrite(db, rs).Rejected?
  {
  }

  /** A put or delete with a whole key. */
  predicate Plain(db: Database, table: string, op: Op) {
    table in db && (op.Put? || op.Delete?) && ReadOne(db[table], About(op)).Ok?
  }

  /** The writes of a batch, in order, with their tables. */
  function AllWrites(groups: seq<Group>): seq<Request> {
    if groups == [] then [] else On(groups[0].table, groups[0].writes) + AllWrites(groups[1..])
  }

  lemma {:induction false} OnMeans(table: string, ops: seq<Op>)
    ensures |On(table, ops)| == |ops| && forall i :: 0 <= i < |ops| ==> On(table, ops)[i] == Request(table, ops[i])
  {
    if ops != [] {
      OnMeans(table, ops[1..]);
    }
  }

  lemma {:induction false} AllWritesCount(groups: seq<Group>)
    ensures |AllWrites(groups)| == BatchSize(groups)
  {
    if groups != [] {
      OnMeans(groups[0].table, groups[0].writes);
      AllWritesCount(groups[1..]);
    }
  }

  /** Looking a table up changes nothing. */
  lemma {:induction false} OnlyWritesCount(db: Database, groups: seq<Group>)
    requires ValidDatabase(db) && forall i :: 0 <= i < |groups| ==> groups[i].table in db
    ensures ApplyAll(db, Flattened(groups)) == ApplyAll(db, AllWrites(groups))
  {
    BatchParts(groups);
    hide *;
    if groups != [] {
      var look := Request(groups[0].table, Check(map[], "", Env(map[], map[])));
      var writes := On(groups[0].table, groups[0].writes);
      var rest, more := Flattened(groups[1..]), AllWrites(groups[1..]);
      assert look.table == groups[0].table && look.op.Check?;
      CheckPasses(db, look, writes + rest);
      InTwoParts(db, writes, rest);
      InTwoParts(db, writes, more);
      if ApplyAll(db, writes).ok {
        OnlyWritesCount(ApplyAll(db, writes).db, groups[1..]);
      }
    }
  }

  lemma BatchParts(groups: seq<Group>)
    ensures groups == [] ==> Flattened(groups) == AllWrites(groups)
    ensures groups != [] ==>
      var writes := On(groups[0].table, groups[0].writes);
      && Flattened(groups) == [Request(groups[0].table, Check(map[], "", Env(map[], map[])))] + (writes + Flattened(groups[1..]))
      && AllWrites(groups) == writes + AllWrites(groups[1..])
  {
    if groups != [] {
      OnLook(groups[0].table, groups[0].writes);
      hide On;
      Assoc([Request(groups[0].table, Check(map[], "", Env(map[], map[])))], On(groups[0].table, groups[0].writes), Flattened(groups[1..]));
    }
  }

  lemma OnLook(table: string, ops: seq<Op>)
    ensures On(table, [Check(map[], "", Env(map[], map[]))] + ops) == [Request(table, Check(map[], "", Env(map[], map[])))] + On(table, ops)
  {
    assert ([Check(map[], "", Env(map[], map[]))] + ops)[1..] == ops;
  }

  lemma {:induction false} InTwoParts(db: Database, a: seq<Request>, b: seq<Request>)
    requires ValidDatabase(db)
    ensures ApplyAll(db, a + b) == if ApplyAll(db, a).ok then ApplyAll(ApplyAll(db, a).db, b) else ApplyAll(db, a)
    decreases |a|
  {
    hide ApplyOne, ValidDatabase;
    if a == [] {
      assert a + b == b;
    } else {
      assert (a + b)[1..] == a[1..] + b && (a + b)[0] == a[0];
      if ApplyOne(db, a[0]).Ok? {
        InTwoParts(ApplyOne(db, a[0]).value, a[1..], b);
      }
    }
  }

  lemma {:induction false} PlainWritesApply(db: Database, rs: seq<Request>)
    requires ValidDatabase(db) && forall i :: 0 <= i < |rs| ==> Plain(db, rs[i].table, rs[i].op)
    ensures ApplyAll(db, rs).ok
    decreases |rs|
  {
    hide ApplyOne, Plain, ValidDatabase;
    if rs != [] {
      OnePlain(db, rs[0]);
      var next := ApplyOne(db, rs[0]).value;
      forall i | 0 <= i < |rs[1..]|
        ensures Plain(next, rs[1..][i].table, rs[1..][i].op)
      {
        StaysPlain(db, rs[0], rs[i + 1]);
      }
      PlainWritesApply(next, rs[1..]);
    }
  }

  lemma OnePlain(db: Database, r: Request)
    requires ValidDatabase(db) && Plain(db, r.table, r.op)
    ensures ApplyOne(db, r).Ok?
  {
    hide ExtractKey, Write, Find;
  }

  lemma StaysPlain(db: Database, r: Request, s: Request)
    requires ValidDatabase(db) && ApplyOne(db, r).Ok? && Plain(db, s.table, s.op)
    ensures Plain(ApplyOne(db, r).value, s.table, s.op)
  {
    SchemasStay(db, r);
    hide ApplyOne, ExtractKey, Find;
  }

  /** A batch of puts and deletes with whole keys for known tables goes through exactly
      when it has at most 25 of them, and then does what they do one after the other; with
      more it does nothing. */
  lemma BatchRuns(db: Database, groups: seq<Group>)
    requires ValidDatabase(db) && (forall i :: 0 <= i < |groups| ==> groups[i].table in db)
    requires forall i :: 0 <= i < |AllWrites(groups)| ==> Plain(db, AllWrites(groups)[i].table, AllWrites(groups)[i].op)
    ensures |AllWrites(groups)| <= 25 ==> BatchWrite(db, groups) == ApplyAll(db, AllWrites(groups)) && BatchWrite(db, groups).ok
    ensures |AllWrites(groups)| > 25 ==> BatchWrite(db, groups) == Progress(db, false)
  {
    AllWritesCount(groups);
    OnlyWritesCount(db, groups);
    PlainWritesApply(db, AllWrites(groups));
    hide ApplyAll, Flattened, AllWrites, Plain, ValidDatabase;
  }
}
