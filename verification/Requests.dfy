/** The write requests of the in-memory backend (memdb/memdb.go) as functions on
    tables and databases: conditional put, delete and update, batches, and
    two-pass write transactions. */
module Requests {
  import opened Base
  import opened Values
  import opened Store
  import opened Parser
  import Projection
  import Evaluation
  import UpdateEval

  /** One write, inside or outside a transaction, with its condition expression. */
  datatype Op =
    | Put(item: Item, cond: string, env: Env)
    | Delete(key: Item, cond: string, env: Env)
    | Update(key: Item, update: string, cond: string, env: Env)
    | Check(key: Item, cond: string, env: Env)

  datatype Request = Request(table: string, op: Op)

  type Database = map<string, Table>

  // ---- One operation on one table ----

  function EvalCondition(expression: string, env: Env, item: Item): Result<bool> {
    if expression == "" then Ok(true)
    else
      match ParseExpression(expression, env)
      case Ok(node) => Evaluation.Eval(node, item)
      case Err => Err
  }

  function Target(t: Table, op: Op): Option<Key> {
    ExtractKey(if op.Put? then op.item else op.key, t.schema.key)
  }

  function OrEmpty(existing: Option<Item>): Item {
    match existing case Some(item) => item case None => map[]
  }

  /** The condition of an operation, on the item now at its key. */
  function Condition(t: Table, op: Op): Result<bool> {
    if op.cond == "" then Ok(true)
    else
      match Target(t, op)
      case Some(k) => EvalCondition(op.cond, op.env, OrEmpty(Get(t, k)))
      case None => Err
  }

  /** What an update leaves at its key: it starts from the stored item, or from the
      key attributes when there is none. */
  function Updated(t: Table, k: Key, op: Op): Result<Item>
    requires op.Update?
  {
    UpdateEval.ApplyUpdate(op.update, op.env, match Get(t, k) case Some(item) => item case None => op.key)
  }

  /** The write itself, without its condition. */
  function Apply(t: Table, op: Op): Result<Table>
    requires ValidTable(t)
  {
    if op.Check? then Ok(t)
    else
      match Target(t, op)
      case None => Err
      case Some(k) =>
        match op
        case Put(item, _, _) => Ok(Write(t, k, Some(item)))
        case Delete(_, _, _) => Ok(Write(t, k, None))
        case Update(_, _, _, _) =>
          match Updated(t, k, op)
          case Ok(item) => Ok(Write(t, k, Some(item)))
          case Err => Err
  }

  lemma ApplyWrites(t: Table, op: Op)
    requires ValidTable(t) && Apply(t, op).Ok?
    ensures var u := Apply(t, op).value;
      ValidTable(u) && u.schema == t.schema && (u == t || IsWrite(t, u))
  {
    hide Write, ExtractKey, Updated, ValidTable;
    if !op.Check? {
      var k := Target(t, op).value;
      match op
      case Put(item, _, _) => assert Apply(t, op).value == Write(t, k, Some(item));
      case Delete(_, _, _) => assert Apply(t, op).value == Write(t, k, None);
      case Update(_, _, _, _) => assert Apply(t, op).value == Write(t, k, Some(Updated(t, k, op).value));
    }
  }

  // ---- Databases ----

  ghost predicate ValidDatabase(db: Database) { forall n :: n in db ==> ValidTable(db[n]) }

  /** One write of a batch, or of the second pass of a transaction. */
  function ApplyOne(db: Database, r: Request): (res: Result<Database>)
    requires ValidDatabase(db)
    ensures res.Ok? ==> ValidDatabase(res.value) && res.value.Keys == db.Keys
  {
    if r.table !in db then Err
    else
      match Apply(db[r.table], r.op)
      case Ok(t) => ApplyWrites(db[r.table], r.op); Ok(db[r.table := t])
      case Err => Err
  }

  /** Writes in order, up to the first that fails. */
  datatype Progress = Progress(db: Database, ok: bool)

  function ApplyAll(db: Database, rs: seq<Request>): (p: Progress)
    requires ValidDatabase(db)
    ensures ValidDatabase(p.db) && p.db.Keys == db.Keys
  {
    if rs == [] then Progress(db, true)
    else
      match ApplyOne(db, rs[0])
      case Ok(next) => ApplyAll(next, rs[1..])
      case Err => Progress(db, false)
  }

  /** The writes that a batch has for one table. */
  datatype Group = Group(table: string, writes: seq<Op>)

  function BatchSize(groups: seq<Group>): nat {
    if groups == [] then 0 else |groups[0].writes| + BatchSize(groups[1..])
  }

  function On(table: string, ops: seq<Op>): seq<Request> {
    if ops == [] then [] else [Request(table, ops[0])] + On(table, ops[1..])
  }

  /** A batch as requests: a group first looks its table up, which is what a check
      without a condition does, and then writes to it. */
  function Flattened(groups: seq<Group>): seq<Request> {
    if groups == [] then []
    else On(groups[0].table, [Check(map[], "", Env(map[], map[]))] + groups[0].writes) + Flattened(groups[1..])
  }

  /** BatchWriteItem; `groups` is in the order in which the request's map is visited. */
  function BatchWrite(db: Database, groups: seq<Group>): Progress
    requires ValidDatabase(db)
  {
    if BatchSize(groups) > 25 then Progress(db, false) else ApplyAll(db, Flattened(groups))
  }

  // ---- Write transactions ----

  /** `Broken` is an error out of the second pass, after some writes. */
  datatype TxResult =
    | Rejected
    | Cancelled(reasons: seq<bool>)
    | Committed(db: Database)
    | Broken(db: Database)

  predicate Resolved(db: Database, rs: seq<Request>) {
    |rs| <= 100 && forall i :: 0 <= i < |rs| ==> rs[i].table in db
  }

  /** All conditions on the state before; true where one failed. */
  function FirstPass(db: Database, rs: seq<Request>): Result<seq<bool>>
    requires forall i :: 0 <= i < |rs| ==> rs[i].table in db
  {
    if rs == [] then Ok([])
    else
      match Condition(db[rs[0].table], rs[0].op)
      case Err => Err
      case Ok(holds) =>
        Prepend([!holds], FirstPass(db, rs[1..]))
  }

  function TransactWrite(db: Database, rs: seq<Request>): TxResult
    requires ValidDatabase(db)
  {
    if !Resolved(db, rs) then Rejected
    else
      match FirstPass(db, rs)
      case Err => Rejected
      case Ok(reasons) =>
        if true in reasons then Cancelled(reasons)
        else
          var p := ApplyAll(db, rs);
          if p.ok then Committed(p.db) else Broken(p.db)
  }

  function After(db: Database, r: TxResult): Database {
    match r
    case Committed(d) => d
    case Broken(d) => d
    case _ => db
  }

  // ---- Read transactions ----

  datatype Read = Read(table: string, key: Item, projection: string, names: map<string, string>)

  function ReadOne(t: Table, key: Item): Result<Option<Item>> {
    match ExtractKey(key, t.schema.key)
    case Some(k) => Ok(Get(t, k))
    case None => Err
  }

  /** The item that a read asks for, projected. */
  function ReadOf(t: Table, get: Read): Result<Option<Item>> {
    match ReadOne(t, get.key)
    case Ok(Some(item)) => Ok(Some(Projection.Projected(item, get.projection, get.names)))
    case other => other
  }

  function ReadAll(db: Database, gets: seq<Read>): Result<seq<Option<Item>>>
    requires forall i :: 0 <= i < |gets| ==> gets[i].table in db
  {
    if gets == [] then Ok([])
    else
      match ReadOf(db[gets[0].table], gets[0])
      case Err => Err
      case Ok(item) =>
        Prepend([item], ReadAll(db, gets[1..]))
  }

  predicate ReadsResolved(db: Database, gets: seq<Read>) {
    |gets| <= 100 && forall i :: 0 <= i < |gets| ==> gets[i].table in db
  }

  function TransactGet(db: Database, gets: seq<Read>): Result<seq<Option<Item>>> {
    if ReadsResolved(db, gets) then ReadAll(db, gets) else Err
  }

  // ---- One step of each pass ----

  function Prepend<T>(done: seq<T>, rest: Result<seq<T>>): Result<seq<T>> {
    match rest case Ok(more) => Ok(done + more) case Err => Err
  }

  lemma PrependNothing<T>(r: Result<seq<T>>)
    ensures Prepend([], r) == r
  {
    if r.Ok? {
      assert [] + r.value == r.value;
    }
  }

  lemma PrependToNothing<T>(done: seq<T>)
    ensures Prepend(done, Ok([])) == Ok(done)
  {
    assert done + [] == done;
  }

  lemma PrependTwice<T>(done: seq<T>, x: T, rest: Result<seq<T>>)
    ensures Prepend(done, Prepend([x], rest)) == Prepend(done + [x], rest)
  {
    if rest.Ok? {
      Assoc(done, [x], rest.value);
    }
  }

  lemma FirstPassStep(db: Database, rs: seq<Request>, i: nat)
    requires i < |rs| && forall j :: 0 <= j < |rs| ==> rs[j].table in db
    ensures FirstPass(db, rs[i..]) ==
      match Condition(db[rs[i].table], rs[i].op)
      case Err => Err
      case Ok(holds) => Prepend([!holds], FirstPass(db, rs[i + 1..]))
  {
    hide Condition;
    assert rs[i..][1..] == rs[i + 1..];
  }

  lemma ReadAllStep(db: Database, gets: seq<Read>, i: nat)
    requires i < |gets| && forall j :: 0 <= j < |gets| ==> gets[j].table in db
    ensures ReadAll(db, gets[i..]) ==
      match ReadOf(db[gets[i].table], gets[i])
      case Err => Err
      case Ok(item) => Prepend([item], ReadAll(db, gets[i + 1..]))
  {
    hide ReadOf;
    assert gets[i..][1..] == gets[i + 1..];
  }

  lemma ApplyAllStep(db: Database, r: Request, rest: seq<Request>)
    requires ValidDatabase(db)
    ensures ApplyAll(db, [r] + rest) ==
      match ApplyOne(db, r) case Ok(next) => ApplyAll(next, rest) case Err => Progress(db, false)
  {
    hide ApplyOne, ValidDatabase;
    assert ([r] + rest)[1..] == rest;
  }

  // ---- What a transaction promises ----

  predicate ConditionIs(db: Database, r: Request, b: bool)
    requires r.table in db
  {
    Condition(db[r.table], r.op) == Ok(b)
  }

  predicate ConditionErrs(db: Database, r: Request)
    requires r.table in db
  {
    Condition(db[r.table], r.op).Err?
  }

  lemma {:induction false} FirstPassMeans(db: Database, rs: seq<Request>)
    requires forall i :: 0 <= i < |rs| ==> rs[i].table in db
    ensures FirstPass(db, rs).Err? <==> exists i :: 0 <= i < |rs| && ConditionErrs(db, rs[i])
    ensures FirstPass(db, rs).Ok? ==> |FirstPass(db, rs).value| == |rs|
    ensures FirstPass(db, rs).Ok? ==> forall i :: 0 <= i < |rs| ==> (FirstPass(db, rs).value[i] <==> ConditionIs(db, rs[i], false))
  {
    hide Condition;
    if rs != [] {
      FirstPassMeans(db, rs[1..]);
      assert forall i :: 0 < i < |rs| ==> rs[i] == rs[1..][i - 1];
      if i :| 0 <= i < |rs| && ConditionErrs(db, rs[i]) {
        assert i == 0 || ConditionErrs(db, rs[1..][i - 1]);
      }
    }
  }

  /** A transaction is cancelled exactly when every condition can be evaluated in
      the state before and some condition is false there. Reason i is a failed check
      exactly when condition i is false, and nothing has changed. */
  lemma CancelledIff(db: Database, rs: seq<Request>)
    requires ValidDatabase(db) && Resolved(db, rs)
    ensures TransactWrite(db, rs).Cancelled? <==>
      && (forall i :: 0 <= i < |rs| ==> !ConditionErrs(db, rs[i]))
      && (exists i :: 0 <= i < |rs| && ConditionIs(db, rs[i], false))
    ensures var r := TransactWrite(db, rs);
      r.Cancelled? ==>
        && After(db, r) == db
        && |r.reasons| == |rs|
        && forall i :: 0 <= i < |rs| ==> (r.reasons[i] <==> ConditionIs(db, rs[i], false))
  {
    FirstPassMeans(db, rs);
    hide Condition, ApplyAll, FirstPass, ConditionIs, ConditionErrs;
  }

  /** states[i + 1] is what request i makes of states[i]. */
  ghost predicate Chain(states: seq<Database>, rs: seq<Request>) {
    && |states| == |rs| + 1
    && (forall i :: 0 <= i < |states| ==> ValidDatabase(states[i]))
    && (forall i :: 0 <= i < |rs| ==> ApplyOne(states[i], rs[i]) == Ok(states[i + 1]))
  }

  ghost predicate Leads(db: Database, states: seq<Database>, rs: seq<Request>, end: Database) {
    Chain(states, rs) && states[0] == db && states[|rs|] == end
  }

  function States(db: Database, rs: seq<Request>): (states: seq<Database>)
    requires ValidDatabase(db)
    ensures |states| > 0 && states[0] == db
    ensures forall i :: 0 <= i < |states| ==> ValidDatabase(states[i])
  {
    if rs == [] || ApplyOne(db, rs[0]).Err? then [db]
    else [db] + States(ApplyOne(db, rs[0]).value, rs[1..])
  }

  /** ApplyAll walks the chain of states of the longest prefix that can be applied. */
  lemma {:induction false} ApplyAllWalks(db: Database, rs: seq<Request>)
    requires ValidDatabase(db)
    ensures var p, states := ApplyAll(db, rs), States(db, rs);
      && |states| <= |rs| + 1
      && Chain(states, rs[..|states| - 1])
      && p.db == states[|states| - 1]
      && (p.ok <==> |states| == |rs| + 1)
      && (!p.ok ==> ApplyOne(p.db, rs[|states| - 1]).Err?)
  {
    hide ApplyOne, ValidDatabase;
    if rs != [] && ApplyOne(db, rs[0]).Ok? {
      var next := ApplyOne(db, rs[0]).value;
      ApplyAllWalks(next, rs[1..]);
      var states, more := States(db, rs), States(next, rs[1..]);
      assert states == [db] + more;
      forall i | 0 <= i < |states| - 1
        ensures ApplyOne(states[i], rs[i]) == Ok(states[i + 1])
      {
        if i > 0 {
          assert rs[1..][..|more| - 1][i - 1] == rs[i];
          assert states[i] == more[i - 1] && states[i + 1] == more[i];
        }
      }
    }
  }

  /** A chain is determined by its requests and its start. */
  lemma {:induction false} ChainIsStates(states: seq<Database>, rs: seq<Request>)
    requires Chain(states, rs)
    ensures ApplyAll(states[0], rs) == Progress(states[|rs|], true)
  {
    hide ApplyOne, ValidDatabase;
    if rs != [] {
      assert Chain(states[1..], rs[1..]);
      ChainIsStates(states[1..], rs[1..]);
    }
  }

  ghost predicate AllHold(db: Database, rs: seq<Request>)
    requires forall i :: 0 <= i < |rs| ==> rs[i].table in db
  {
    forall i :: 0 <= i < |rs| ==> ConditionIs(db, rs[i], true)
  }

  lemma {:induction false} AllHoldIff(db: Database, rs: seq<Request>)
    requires forall i :: 0 <= i < |rs| ==> rs[i].table in db
    ensures AllHold(db, rs) <==> FirstPass(db, rs).Ok? && true !in FirstPass(db, rs).value
  {
    hide Condition;
    if rs != [] {
      AllHoldIff(db, rs[1..]);
      assert forall i :: 0 < i < |rs| ==> rs[i] == rs[1..][i - 1];
      assert AllHold(db, rs) <==> ConditionIs(db, rs[0], true) && AllHold(db, rs[1..]);
    }
  }

  /** The second pass runs exactly when every condition holds. */
  lemma SecondPassIff(db: Database, rs: seq<Request>)
    requires ValidDatabase(db) && Resolved(db, rs)
    ensures AllHold(db, rs) ==>
      TransactWrite(db, rs) == (if ApplyAll(db, rs).ok then Committed(ApplyAll(db, rs).db) else Broken(ApplyAll(db, rs).db))
    ensures !AllHold(db, rs) ==> !TransactWrite(db, rs).Committed? && !TransactWrite(db, rs).Broken?
  {
    AllHoldIff(db, rs);
    hide AllHold, ApplyAll, FirstPass, ValidDatabase;
  }

  /** A transaction commits exactly when every condition is true in the state before
      and every write can be applied after the ones to its left; it ends in the last
      state of that chain. */
  lemma CommittedIff(db: Database, rs: seq<Request>, end: Database)
    requires ValidDatabase(db) && Resolved(db, rs)
    ensures TransactWrite(db, rs) == Committed(end) <==>
      AllHold(db, rs) && exists states :: Leads(db, states, rs, end)
  {
    hide ApplyAll, ApplyOne, TransactWrite, Chain, AllHold, ValidDatabase, Resolved, States;
    SecondPassIff(db, rs);
    if states :| Leads(db, states, rs, end) {
      ChainIsStates(states, rs);
    }
    if ApplyAll(db, rs).ok {
      ApplyAllWalks(db, rs);
      var walked := States(db, rs);
      assert rs[..|walked| - 1] == rs;
      assert Leads(db, walked, rs, ApplyAll(db, rs).db);
    }
  }

  ghost predicate Fails(db: Database, r: Request) { ValidDatabase(db) && ApplyOne(db, r).Err? }

  /** The one way in which a failed transaction leaves writes behind: all conditions
      are true before, and some write n can then not be applied after the first n. */
  lemma BrokenIff(db: Database, rs: seq<Request>, end: Database)
    requires ValidDatabase(db) && Resolved(db, rs)
    ensures TransactWrite(db, rs) == Broken(end) <==>
      AllHold(db, rs) && exists n: nat, states :: n < |rs| && Leads(db, states, rs[..n], end) && Fails(end, rs[n])
  {
    hide ApplyAll, ApplyOne, TransactWrite, Chain, AllHold, ValidDatabase, Resolved, States;
    SecondPassIff(db, rs);
    if n: nat, states :| n < |rs| && Leads(db, states, rs[..n], end) && Fails(end, rs[n]) {
      PrefixThenError(states, rs, n);
    }
    if !ApplyAll(db, rs).ok {
      ApplyAllWalks(db, rs);
      var walked := States(db, rs);
      assert Leads(db, walked, rs[..|walked| - 1], ApplyAll(db, rs).db);
    }
  }

  lemma {:induction false} PrefixThenError(states: seq<Database>, rs: seq<Request>, n: nat)
    requires n < |rs| && Chain(states, rs[..n]) && ApplyOne(states[n], rs[n]).Err?
    ensures ApplyAll(states[0], rs) == Progress(states[n], false)
  {
    hide ApplyOne, ValidDatabase;
    if n > 0 {
      assert rs[..n][0] == rs[0];
      assert rs[1..][..n - 1] == rs[..n][1..];
      assert Chain(states[1..], rs[1..][..n - 1]);
      PrefixThenError(states[1..], rs[1..], n - 1);
    }
  }

  /** The write of r changes what the update of a later s starts from. */
  predicate Disturbs(db: Database, r: Request, s: Request)
    requires r.table in db && s.table in db
  {
    && !r.op.Check? && s.op.Update? && r.table == s.table
    && Target(db[r.table], r.op).Some? && Target(db[r.table], r.op) == Target(db[s.table], s.op)
  }

  /** No update comes after a write to its own item; so it is whenever the targets of
      the requests are pairwise distinct, and whenever there are no updates. */
  ghost predicate Undisturbed(db: Database, rs: seq<Request>)
    requires forall i :: 0 <= i < |rs| ==> rs[i].table in db
  {
    forall i, j :: 0 <= i < j < |rs| ==> !Disturbs(db, rs[i], rs[j])
  }

  /** The request cannot be applied to the state given: a key attribute is missing, or
      the update is an error on the item that is there. */
  ghost predicate Inapplicable(db: Database, r: Request) {
    ValidDatabase(db) && r.table in db && Apply(db[r.table], r.op).Err?
  }

  /** Then a transaction whose conditions hold breaks off exactly when some request
      cannot be applied to the state before, which a caller can look at. */
  lemma BreaksIff(db: Database, rs: seq<Request>)
    requires ValidDatabase(db) && Resolved(db, rs) && Undisturbed(db, rs) && AllHold(db, rs)
    ensures TransactWrite(db, rs).Broken? <==> exists i :: 0 <= i < |rs| && Inapplicable(db, rs[i])
    ensures !TransactWrite(db, rs).Broken? ==> TransactWrite(db, rs).Committed?
  {
    SecondPassIff(db, rs);
    hide *;
    AppliesIff(db, rs) by {
      ResolvedTables(db, rs);
    }
  }

  lemma ResolvedTables(db: Database, rs: seq<Request>)
    requires Resolved(db, rs)
    ensures forall i :: 0 <= i < |rs| ==> rs[i].table in db
  {
  }

  lemma {:induction false} AppliesIff(db: Database, rs: seq<Request>)
    requires ValidDatabase(db) && (forall i :: 0 <= i < |rs| ==> rs[i].table in db) && Undisturbed(db, rs)
    ensures ApplyAll(db, rs).ok <==> forall i :: 0 <= i < |rs| ==> !Inapplicable(db, rs[i])
  {
    hide Apply, ExtractKey, ValidDatabase, ValidTable, Disturbs, Inapplicable, ApplyOne;
    if rs != [] {
      ApplyOneIff(db, rs[0]);
      if ApplyOne(db, rs[0]).Ok? {
        var next := ApplyOne(db, rs[0]).value;
        assert forall i :: 0 < i < |rs| ==> rs[i] == rs[1..][i - 1];
        forall j | 0 < j < |rs|
          ensures Inapplicable(next, rs[j]) <==> Inapplicable(db, rs[j])
        {
          StaysApplicable(db, rs[0], rs[j]);
        }
        forall i, j | 0 < i < j < |rs|
          ensures !Disturbs(next, rs[i], rs[j])
        {
          DisturbsLater(db, rs[0], rs[i], rs[j]);
        }
        AppliesIff(next, rs[1..]);
      }
    }
  }

  lemma ApplyOneIff(db: Database, r: Request)
    requires ValidDatabase(db) && r.table in db
    ensures ApplyOne(db, r).Err? <==> Inapplicable(db, r)
  {
    hide Apply, ValidTable;
  }

  /** Schemas never change. */
  lemma SchemasStay(db: Database, r: Request)
    requires ValidDatabase(db) && ApplyOne(db, r).Ok?
    ensures forall n :: n in db ==> n in ApplyOne(db, r).value && ApplyOne(db, r).value[n].schema == db[n].schema
  {
    hide Apply, ValidTable;
    ApplyWrites(db[r.table], r.op);
  }

  lemma DisturbsLater(db: Database, r: Request, s: Request, u: Request)
    requires ValidDatabase(db) && ApplyOne(db, r).Ok? && s.table in db && u.table in db
    ensures Disturbs(ApplyOne(db, r).value, s, u) <==> Disturbs(db, s, u)
  {
    hide ApplyOne, ValidDatabase, ExtractKey;
    SchemasStay(db, r);
  }

  /** What a request starts from is untouched by a write elsewhere. */
  lemma StaysApplicable(db: Database, r: Request, s: Request)
    requires ValidDatabase(db) && ApplyOne(db, r).Ok? && s.table in db && !Disturbs(db, r, s)
    ensures Inapplicable(ApplyOne(db, r).value, s) <==> Inapplicable(db, s)
  {
    SchemasStay(db, r);
    if s.op.Update? && s.table == r.table && Target(db[s.table], s.op).Some? {
      OthersStay(db, r, Target(db[s.table], s.op).value);
    }
    hide Write, ExtractKey, ValidTable, UpdateEval.ApplyUpdate, Get;
  }

  lemma OthersStay(db: Database, r: Request, k: Key)
    requires ValidDatabase(db) && ApplyOne(db, r).Ok? && (r.op.Check? || Target(db[r.table], r.op) != Some(k))
    ensures Get(ApplyOne(db, r).value[r.table], k) == Get(db[r.table], k)
  {
    var t := db[r.table];
    if !r.op.Check? {
      var at := Target(t, r.op).value;
      match r.op
      case Put(item, _, _) => WriteFinds(t, at, Some(item));
      case Delete(_, _, _) => WriteFinds(t, at, None);
      case Update(_, _, _, _) => WriteFinds(t, at, Some(Updated(t, at, r.op).value));
    }
    hide Write, ExtractKey, ValidTable, Updated, Get;
  }

  /** A put or delete can be applied whenever its own item or key has the table's key
      attributes, whatever came before. */
  predicate HasKey(db: Database, r: Request)
    requires r.table in db
  {
    r.op.Check? || Target(db[r.table], r.op).Some?
  }

  /** Without updates, a transaction whose conditions hold is all or nothing exactly
      when no put or delete lacks its key: otherwise it stops in the middle. */
  lemma UpdateFreeBreaksIff(db: Database, rs: seq<Request>)
    requires ValidDatabase(db) && Resolved(db, rs)
    requires forall i :: 0 <= i < |rs| ==> !rs[i].op.Update?
    requires AllHold(db, rs)
    ensures TransactWrite(db, rs).Broken? <==> exists i :: 0 <= i < |rs| && !HasKey(db, rs[i])
  {
    hide ValidDatabase, AllHold, TransactWrite, Apply, ExtractKey, HasKey, Inapplicable;
    BreaksIff(db, rs);
    forall i | 0 <= i < |rs|
      ensures Inapplicable(db, rs[i]) <==> !HasKey(db, rs[i])
    {
      KeyIsEnough(db, rs[i]);
    }
  }

  lemma KeyIsEnough(db: Database, r: Request)
    requires ValidDatabase(db) && r.table in db && !r.op.Update?
    ensures Inapplicable(db, r) <==> !HasKey(db, r)
  {
    hide Write, ExtractKey, ValidTable;
  }

  /** So a transaction can return an error and yet have written: a put, then a delete
      whose key is missing. */
  lemma ErrorAfterAWrite(db: Database, name: string, item: Item, env: Env)
    requires ValidDatabase(db) && name in db && ExtractKey(item, db[name].schema.key).Some?
    ensures var k := ExtractKey(item, db[name].schema.key).value;
      TransactWrite(db, [Request(name, Put(item, "", env)), Request(name, Delete(map[], "", env))])
        == Broken(db[name := Write(db[name], k, Some(item))])
  {
    var p, d := Request(name, Put(item, "", env)), Request(name, Delete(map[], "", env));
    var rs := [p, d];
    var k := ExtractKey(item, db[name].schema.key).value;
    var next := db[name := Write(db[name], k, Some(item))];
    NoKeyInNothing(db[name].schema.key);
    hide Write, ValidDatabase, ApplyAll, TransactWrite, ExtractKey, Updated, EvalCondition;
    assert ApplyOne(db, p) == Ok(next);
    assert ApplyOne(next, d) == Err;
    assert AllHold(db, rs);
    hide *;
    FailsSecond(db, p, next, d);
    SecondPassIff(db, rs);
  }

  lemma NoKeyInNothing(schema: KeySchema)
    ensures ExtractKey(map[], schema) == None
  {
  }

  lemma FailsSecond(db: Database, p: Request, next: Database, d: Request)
    requires ValidDatabase(db) && ApplyOne(db, p) == Ok(next) && ApplyOne(next, d) == Err
    ensures ApplyAll(db, [p, d]) == Progress(next, false)
  {
    hide ApplyOne, ValidDatabase;
    assert [p, d][1..] == [d];
    assert ApplyAll(next, [d]) == Progress(next, false);
  }

  /** A write outside a transaction is a transaction of one. */
  datatype WriteResult = Done(t: Table) | ConditionFailed | Error

  function WriteOne(t: Table, op: Op): WriteResult
    requires ValidTable(t)
  {
    match Target(t, op)
    case None => Error
    case Some(k) =>
      match EvalCondition(op.cond, op.env, OrEmpty(Get(t, k)))
      case Err => Error
      case Ok(false) => ConditionFailed
      case Ok(true) =>
        match Apply(t, op)
        case Ok(u) => Done(u)
        case Err => Error
  }

  lemma WriteOneIsATransaction(db: Database, r: Request)
    requires ValidDatabase(db) && r.table in db && !r.op.Check?
    ensures match WriteOne(db[r.table], r.op)
      case Done(t) => TransactWrite(db, [r]) == Committed(db[r.table := t])
      case ConditionFailed => TransactWrite(db, [r]) == Cancelled([true])
      case Error => TransactWrite(db, [r]) == Rejected || TransactWrite(db, [r]) == Broken(db)
  {
    hide Write, ExtractKey, Updated, ParseExpression;
    var rs := [r];
    assert rs[1..] == [];
    assert FirstPass(db, []) == Ok([]);
    assert ApplyAll(db, rs) == match ApplyOne(db, r) case Ok(next) => Progress(next, true) case Err => Progress(db, false);
    match Condition(db[r.table], r.op)
    case Err =>
    case Ok(b) => assert FirstPass(db, rs) == Ok([!b] + []);
  }

  // ---- Index agreement over every history of requests ----

  ghost predicate AllSound(db: Database) { forall n :: n in db ==> Sound(db[n]) }

  ghost predicate AllComplete(db: Database)
    requires ValidDatabase(db)
  {
    forall n :: n in db ==> Complete(db[n])
  }

  ghost predicate NoCollisions(db: Database) { forall n :: n in db ==> NoCollision(db[n]) }

  /** A database freshly made by CreateTable. */
  ghost predicate Fresh(db: Database) { forall n :: n in db ==> db[n] == EmptyTable(db[n].schema) }

  lemma FreshIsSound(db: Database)
    requires Fresh(db)
    ensures ValidDatabase(db) && AllSound(db) && AllComplete(db)
  {
    hide Sound, Complete, NoCollision, EmptyTable;
    forall n | n in db
      ensures ValidTable(db[n]) && Sound(db[n]) && Complete(db[n])
    {
      EmptyIsSound(db[n].schema);
      SoundIsValid(db[n]);
    }
  }

  lemma ApplyOneKeepsSound(db: Database, r: Request)
    requires ValidDatabase(db) && AllSound(db) && ApplyOne(db, r).Ok?
    ensures AllSound(ApplyOne(db, r).value)
  {
    hide Apply, Sound, Write;
    var t := db[r.table];
    ApplyWrites(t, r.op);
    var u := Apply(t, r.op).value;
    if IsWrite(t, u) {
      var k, newItem :| u == Write(t, k, newItem);
      WriteKeepsSound(t, k, newItem);
    }
  }

  lemma ApplyOneKeepsComplete(db: Database, r: Request)
    requires ValidDatabase(db) && AllComplete(db) && NoCollisions(db) && ApplyOne(db, r).Ok?
    requires NoCollisions(ApplyOne(db, r).value)
    ensures AllComplete(ApplyOne(db, r).value)
  {
    hide Apply, Complete, NoCollision, Write, ValidTable;
    var t := db[r.table];
    ApplyWrites(t, r.op);
    var u := Apply(t, r.op).value;
    assert ApplyOne(db, r).value == db[r.table := u];
    assert NoCollision(t) && NoCollision(u);
    if IsWrite(t, u) {
      var k, newItem :| u == Write(t, k, newItem);
      WriteKeepsComplete(t, k, newItem);
    }
  }

  /** What clients send. */
  datatype Call = One(r: Request) | Batch(groups: seq<Group>) | Transaction(rs: seq<Request>)

  function Handle(db: Database, call: Call): (next: Database)
    requires ValidDatabase(db)
    ensures ValidDatabase(next)
  {
    match call
    case One(r) => After(db, TransactWrite(db, [r]))
    case Batch(groups) => BatchWrite(db, groups).db
    case Transaction(rs) => After(db, TransactWrite(db, rs))
  }

  /** Every state that the database passes through while a call is handled, the one
      before it first. */
  function Passed(db: Database, call: Call): (states: seq<Database>)
    requires ValidDatabase(db)
    ensures |states| > 0 && states[0] == db
  {
    match call
    case One(r) => if Handle(db, call) == db then [db] else States(db, [r])
    case Batch(groups) => if BatchSize(groups) > 25 then [db] else States(db, Flattened(groups))
    case Transaction(rs) => if TransactWrite(db, rs).Committed? || TransactWrite(db, rs).Broken? then States(db, rs) else [db]
  }

  function HandleAll(db: Database, calls: seq<Call>): (next: Database)
    requires ValidDatabase(db)
    ensures ValidDatabase(next)
  {
    if calls == [] then db else HandleAll(Handle(db, calls[0]), calls[1..])
  }

  function PassedAll(db: Database, calls: seq<Call>): seq<Database>
    requires ValidDatabase(db)
  {
    if calls == [] then [db] else Passed(db, calls[0]) + PassedAll(Handle(db, calls[0]), calls[1..])
  }

  /** Consecutive states differ by at most one write. */
  ghost predicate Path(states: seq<Database>) {
    && |states| > 0
    && (forall i :: 0 <= i < |states| ==> ValidDatabase(states[i]))
    && (forall i :: 0 < i < |states| ==> states[i] == states[i - 1] || Follows(states[i - 1], states[i]))
  }

  ghost predicate Follows(db: Database, next: Database)
    requires ValidDatabase(db)
  {
    exists r :: ApplyOne(db, r) == Ok(next)
  }

  lemma PassedIsPath(db: Database, call: Call)
    requires ValidDatabase(db)
    ensures Path(Passed(db, call))
    ensures Passed(db, call)[|Passed(db, call)| - 1] == Handle(db, call)
  {
    hide ApplyOne, ValidDatabase, FirstPass, ApplyAll, States, Flattened, BatchSize;
    var rs := match call case One(r) => [r] case Batch(groups) => Flattened(groups) case Transaction(rs) => rs;
    ApplyAllWalks(db, rs);
    var states := States(db, rs);
    forall i | 0 < i < |states|
      ensures Follows(states[i - 1], states[i])
    {
      assert ApplyOne(states[i - 1], rs[..|states| - 1][i - 1]) == Ok(states[i]);
    }
    assert Path(states) && Path([db]);
  }

  lemma {:induction false} PassedAllIsPath(db: Database, calls: seq<Call>)
    requires ValidDatabase(db)
    ensures Path(PassedAll(db, calls)) && PassedAll(db, calls)[0] == db
    ensures PassedAll(db, calls)[|PassedAll(db, calls)| - 1] == HandleAll(db, calls)
    decreases |calls|
  {
    hide Passed, Handle, Follows, ValidDatabase;
    if calls != [] {
      var a, b := Passed(db, calls[0]), PassedAll(Handle(db, calls[0]), calls[1..]);
      PassedIsPath(db, calls[0]);
      PassedAllIsPath(Handle(db, calls[0]), calls[1..]);
      forall i | 0 < i < |a + b|
        ensures (a + b)[i] == (a + b)[i - 1] || Follows((a + b)[i - 1], (a + b)[i])
      {
        if i > |a| {
          assert (a + b)[i] == b[i - |a|] && (a + b)[i - 1] == b[i - |a| - 1];
        }
      }
    }
  }

  lemma {:induction false} PathKeepsSound(states: seq<Database>, n: nat)
    requires Path(states) && AllSound(states[0]) && n < |states|
    ensures AllSound(states[n])
  {
    hide ApplyOne, AllSound, ValidDatabase;
    if n > 0 {
      PathKeepsSound(states, n - 1);
      if states[n] != states[n - 1] {
        var r :| ApplyOne(states[n - 1], r) == Ok(states[n]);
        ApplyOneKeepsSound(states[n - 1], r);
      }
    }
  }

  lemma {:induction false} PathKeepsComplete(states: seq<Database>, n: nat)
    requires Path(states) && AllComplete(states[0]) && n < |states|
    requires forall i :: 0 <= i <= n ==> NoCollisions(states[i])
    ensures AllComplete(states[n])
  {
    hide ApplyOne, AllComplete, ValidDatabase, NoCollisions;
    if n > 0 {
      PathKeepsComplete(states, n - 1);
      if states[n] != states[n - 1] {
        var r :| ApplyOne(states[n - 1], r) == Ok(states[n]);
        ApplyOneKeepsComplete(states[n - 1], r);
      }
    }
  }

  /** After any calls on fresh tables every index entry is a current item at its own
      index key; and if no state on the way had two items under one index key, every
      index is its base table re-keyed (IndexIsBaseRekeyed). */
  lemma EveryHistoryAgrees(db: Database, calls: seq<Call>)
    requires Fresh(db) && ValidDatabase(db)
    ensures AllSound(HandleAll(db, calls))
    ensures (forall i :: 0 <= i < |PassedAll(db, calls)| ==> NoCollisions(PassedAll(db, calls)[i])) ==> AllComplete(HandleAll(db, calls))
  {
    hide Fresh, AllSound, AllComplete, NoCollisions, ValidDatabase, PassedAll, HandleAll;
    FreshIsSound(db);
    PassedAllIsPath(db, calls);
    var states := PassedAll(db, calls);
    PathKeepsSound(states, |states| - 1);
    if forall i :: 0 <= i < |states| ==> NoCollisions(states[i]) {
      PathKeepsComplete(states, |states| - 1);
    }
  }

  // ---- Updates that write key attributes ----

  /** An update leaves the items at their own keys exactly when the updated item still
      has the key it is stored under. */
  lemma UpdateKeepsAtHomeIff(t: Table, op: Op)
    requires ValidTable(t) && AtHome(t) && op.Update? && Apply(t, op).Ok?
    ensures AtHome(Apply(t, op).value) <==>
      ExtractKey(Updated(t, Target(t, op).value, op).value, t.schema.key) == Target(t, op)
  {
    hide ExtractKey, AtHome, Updated, Write, ValidTable;
    var k := Target(t, op).value;
    WriteKeepsAtHomeIff(t, k, Some(Updated(t, k, op).value));
  }

  /** Puts and deletes always do. */
  lemma PutAndDeleteKeepAtHome(t: Table, op: Op)
    requires ValidTable(t) && AtHome(t) && !op.Update? && Apply(t, op).Ok?
    ensures AtHome(Apply(t, op).value)
  {
    hide ExtractKey, AtHome, Write, ValidTable;
    if !op.Check? {
      WriteKeepsAtHomeIff(t, Target(t, op).value, if op.Put? then Some(op.item) else None);
    }
  }
}
