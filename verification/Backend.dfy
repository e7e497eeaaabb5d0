/** The in-memory backend as objects (memdb/memdb.go): tables whose maps are
    updated in place, and requests that are proved to do what Requests says. */
module Backend {
  import opened Base
  import opened Values
  import opened Store
  import opened Parser
  import opened Requests
  import Evaluation
  import ExprParsing
  import UpdateEval
  import UpdateExpr
  import Lexer
  import Projection

  datatype Reply = Success | CheckFailed | Invalid

  datatype ReturnValues = ReturnNone | ReturnAllNew | ReturnAllOld

  /** One write outside a transaction changes its table, or nothing. */
  ghost predicate TableAnswers(before: Table, op: Op, r: Reply, after: Table)
    requires ValidTable(before)
  {
    match WriteOne(before, op)
    case Done(t) => r == Success && after == t
    case ConditionFailed => r == CheckFailed && after == before
    case Error => r == Invalid && after == before
  }

  ghost predicate DatabaseAnswers(before: Database, name: string, op: Op, r: Reply, after: Database)
    requires name in before ==> ValidTable(before[name])
  {
    if name !in before then r == Invalid && after == before
    else exists t :: after == before[name := t] && TableAnswers(before[name], op, r, t)
  }

  /** The item at the key, read off the table after or before the update. */
  function Attributes(values: ReturnValues, before: Table, after: Table, key: Item): Option<Item> {
    match ExtractKey(key, before.schema.key)
    case None => None
    case Some(k) =>
      match values
      case ReturnNone => None
      case ReturnAllNew => Get(after, k)
      case ReturnAllOld => Get(before, k)
  }

  /** tableData. */
  class TableData {
    const schema: TableSchema
    var items: Rows
    var gsis: map<string, Rows>

    constructor (schema: TableSchema)
      ensures this.schema == schema && Valid() && Value() == EmptyTable(schema)
    {
      this.schema := schema;
      items := map[];
      gsis := map g | g in schema.gsis :: map[];
    }

    ghost predicate Valid()
      reads this
    {
      NoEmptyMaps(items) && ValidIndexes()
    }

    ghost predicate ValidIndexes()
      reads this`gsis
    {
      gsis.Keys == schema.gsis.Keys && forall g :: g in gsis ==> NoEmptyMaps(gsis[g])
    }

    ghost function Value(): Table
      reads this
    {
      Table(schema, items, gsis)
    }

    method GetItem(k: Key) returns (item: Option<Item>)
      ensures item == Get(Value(), k)
    {
      if k.hash in items {
        var rng := items[k.hash];
        if k.range in rng {
          return Some(rng[k.range]);
        }
      }
      item := None;
    }

    method StoreItem(k: Key, item: Item)
      modifies this`items
      ensures items == Insert(old(items), k, item)
    {
      if k.hash !in items {
        items := items[k.hash := map[]];
      }
      items := items[k.hash := items[k.hash][k.range := item]];
    }

    method DeleteItem(k: Key) returns (item: Option<Item>)
      modifies this`items
      ensures items == Erase(old(items), k) && item == Find(old(items), k)
    {
      if k.hash in items {
        var rng := items[k.hash];
        if k.range in rng {
          item := Some(rng[k.range]);
          rng := rng - {k.range};
          if |rng| == 0 {
            items := items - {k.hash};
          } else {
            items := items[k.hash := rng];
          }
          return;
        }
      }
      item := None;
    }

    /** updateGSIs; the indexes are visited in any order. */
    method UpdateGSIs(oldItem: Option<Item>, newItem: Option<Item>)
      requires ValidIndexes()
      modifies this`gsis
      ensures gsis == map g | g in old(gsis) :: Reindex(old(gsis)[g], schema.gsis[g], oldItem, newItem)
    {
      var todo := gsis.Keys;
      while todo != {}
        invariant todo <= gsis.Keys == old(gsis).Keys
        invariant forall g :: g in gsis ==>
          gsis[g] == (if g in todo then old(gsis)[g] else Reindex(old(gsis)[g], schema.gsis[g], oldItem, newItem))
        decreases todo
      {
        hide NoEmptyMaps, Reindex;
        var g :| g in todo;
        todo := todo - {g};
        var rows := ReindexInPlace(gsis[g], schema.gsis[g], oldItem, newItem);
        gsis := gsis[g := rows];
      }
    }

    /** The lines that follow a passed condition in every put and update. */
    method ReplaceItem(k: Key, item: Item)
      requires Valid()
      modifies this
      ensures Valid() && Value() == Write(old(Value()), k, Some(item))
    {
      hide NoEmptyMaps, Insert, Erase, Find, Reindex;
      ghost var before := Value();
      var oldItem := GetItem(k);
      StoreItem(k, item);
      UpdateGSIs(oldItem, Some(item));
      WriteKeepsNoEmptyMaps(before, k, Some(item));
    }

    method RemoveItem(k: Key)
      requires Valid()
      modifies this
      ensures Valid() && Value() == Write(old(Value()), k, None)
    {
      hide NoEmptyMaps, Insert, Erase, Find, Reindex;
      ghost var before := Value();
      var oldItem := DeleteItem(k);
      UpdateGSIs(oldItem, None);
      WriteKeepsNoEmptyMaps(before, k, None);
    }

    /** The body of PutItem under the table's lock. */
    method Put(item: Item, cond: string, env: Env) returns (r: Reply)
      requires Valid()
      modifies this
      ensures Valid() && TableAnswers(old(Value()), Op.Put(item, cond, env), r, Value())
    {
      hide ExtractKey, Find, ParseExpression, NoEmptyMaps, Write;
      var k := ExtractKey(item, schema.key);
      if k.None? {
        return Invalid;
      }
      if cond != "" {
        var existing := GetItem(k.value);
        var ok := EvalConditionText(cond, env, OrEmpty(existing));
        if ok.Err? {
          return Invalid;
        }
        if !ok.value {
          return CheckFailed;
        }
      }
      ReplaceItem(k.value, item);
      r := Success;
    }

    /** The body of DeleteItem. */
    method Delete(key: Item, cond: string, env: Env) returns (r: Reply)
      requires Valid()
      modifies this
      ensures Valid() && TableAnswers(old(Value()), Op.Delete(key, cond, env), r, Value())
    {
      hide ExtractKey, Find, ParseExpression, NoEmptyMaps, Write;
      var k := ExtractKey(key, schema.key);
      if k.None? {
        return Invalid;
      }
      if cond != "" {
        var existing := GetItem(k.value);
        var ok := EvalConditionText(cond, env, OrEmpty(existing));
        if ok.Err? {
          return Invalid;
        }
        if !ok.value {
          return CheckFailed;
        }
      }
      RemoveItem(k.value);
      r := Success;
    }

    /** The body of UpdateItem. */
    method Update(key: Item, update: string, cond: string, env: Env, values: ReturnValues)
      returns (r: Reply, attributes: Option<Item>)
      requires Valid()
      modifies this
      ensures Valid() && TableAnswers(old(Value()), Op.Update(key, update, cond, env), r, Value())
      ensures r == Success ==> attributes == Attributes(values, old(Value()), Value(), key)
    {
      hide ExtractKey, Find, ParseExpression, NoEmptyMaps, Write, UpdateEval.ApplyUpdate;
      attributes := None;
      var k := ExtractKey(key, schema.key);
      if k.None? {
        return Invalid, None;
      }
      var existing := GetItem(k.value);
      if cond != "" {
        var ok := EvalConditionText(cond, env, OrEmpty(existing));
        if ok.Err? {
          return Invalid, None;
        }
        if !ok.value {
          return CheckFailed, None;
        }
      }
      var item := ApplyUpdateText(update, env, match existing case Some(stored) => stored case None => key);
      if item.Err? {
        return Invalid, None;
      }
      WriteFinds(Value(), k.value, Some(item.value));
      ReplaceItem(k.value, item.value);
      r := Success;
      match values
      case ReturnAllNew => attributes := Some(item.value);
      case ReturnAllOld => attributes := existing;
      case ReturnNone => attributes := None;
    }

    /** The first pass of a transaction on one operation. */
    method CheckCondition(op: Op) returns (r: Result<bool>)
      requires Valid()
      ensures r == Condition(Value(), op)
    {
      hide ParseExpression, Evaluation.Eval, ExtractKey, Find;
      if op.cond == "" {
        return Ok(true);
      }
      var k := ExtractKey(if op.Put? then op.item else op.key, schema.key);
      if k.None? {
        return Err;
      }
      var existing := GetItem(k.value);
      r := EvalConditionText(op.cond, op.env, OrEmpty(existing));
    }

    /** The second pass of a transaction on one operation. */
    method ApplyOp(op: Op) returns (ok: bool)
      requires Valid()
      modifies this
      ensures Valid()
      ensures match Apply(old(Value()), op)
              case Ok(t) => ok && Value() == t
              case Err => !ok && Value() == old(Value())
    {
      hide NoEmptyMaps, ExtractKey, Write, UpdateEval.ApplyUpdate, Find;
      if op.Check? {
        return true;
      }
      var k := ExtractKey(if op.Put? then op.item else op.key, schema.key);
      if k.None? {
        return false;
      }
      ok := true;
      match op
      case Put(item, _, _) =>
        ReplaceItem(k.value, item);
      case Delete(_, _, _) =>
        RemoveItem(k.value);
      case Update(key, update, _, env) =>
        var existing := GetItem(k.value);
        var item := ApplyUpdateText(update, env, match existing case Some(stored) => stored case None => key);
        if item.Err? {
          return false;
        }
        ReplaceItem(k.value, item.value);
    }
  }

  /** The body of updateGSIs for one index. */
  method ReindexInPlace(start: Rows, schema: KeySchema, oldItem: Option<Item>, newItem: Option<Item>) returns (rows: Rows)
    requires NoEmptyMaps(start)
    ensures rows == Reindex(start, schema, oldItem, newItem)
  {
    hide ExtractKey, Erase, Insert, NoEmptyMaps;
    rows := start;
    if oldItem.Some? {
      var at := ExtractKey(oldItem.value, schema);
      if at.Some? {
        rows := DropEntry(rows, at.value);
      }
    }
    if newItem.Some? {
      var at := ExtractKey(newItem.value, schema);
      if at.Some? {
        rows := AddEntry(rows, at.value, newItem.value);
      }
    }
  }

  method DropEntry(start: Rows, k: Key) returns (rows: Rows)
    requires NoEmptyMaps(start)
    ensures rows == Erase(start, k)
  {
    hide Erase;
    rows := start;
    if k.hash in rows {
      var rngMap := rows[k.hash] - {k.range};
      if |rngMap| == 0 {
        rows := rows - {k.hash};
      } else {
        rows := rows[k.hash := rngMap];
      }
      DroppingIsErase(start, k);
    } else {
      NothingToErase(start, k);
    }
  }

  method AddEntry(start: Rows, k: Key, item: Item) returns (rows: Rows)
    ensures rows == Insert(start, k, item)
  {
    rows := start;
    if k.hash !in rows {
      rows := rows[k.hash := map[]];
    }
    rows := rows[k.hash := rows[k.hash][k.range := item]];
  }

  lemma NothingToErase(rows: Rows, k: Key)
    requires k.hash !in rows
    ensures Erase(rows, k) == rows
  {
  }

  lemma DroppingIsErase(rows: Rows, k: Key)
    requires NoEmptyMaps(rows) && k.hash in rows
    ensures var inner := rows[k.hash] - {k.range};
      Erase(rows, k) == (if |inner| == 0 then rows - {k.hash} else rows[k.hash := inner])
  {
    var inner := rows[k.hash] - {k.range};
    if k.range !in rows[k.hash] {
      assert inner == rows[k.hash];
      assert rows[k.hash := inner] == rows;
    }
  }

  /** evalCondition. */
  method EvalConditionText(expression: string, env: Env, item: Item) returns (r: Result<bool>)
    ensures r == EvalCondition(expression, env, item)
  {
    hide ParseExpression, Evaluation.Eval;
    if expression == "" {
      return Ok(true);
    }
    var node := ExprParsing.ParseExpressionToAST(expression, env);
    if node.Err? {
      return Err;
    }
    r := Evaluation.Eval(node.value, item);
  }

  /** Parsing and applying an update expression; no result after an error or a panic. */
  method ApplyUpdateText(expression: string, env: Env, item: Item) returns (r: Result<Item>)
    ensures r == UpdateEval.ApplyUpdate(expression, env, item)
  {
    hide UpdateExpr.Sections, UpdateEval.EvalOps, UpdateEval.ValidOp, Lexer.MemTokens;
    if expression == "" {
      return Ok(item);
    }
    var ops := UpdateExpr.ParseUpdateExpression(expression, env);
    if !ops.Yes? {
      return Err;
    }
    UpdateEval.SectionsValid([], Lexer.MemTokens(expression), env);
    r := UpdateEval.EvalUpdateNodes(ops.value, item);
  }

  lemma WriteKeepsNoEmptyMaps(t: Table, k: Key, newItem: Option<Item>)
    requires ValidTable(t) && NoEmptyMaps(t.items) && forall g :: g in t.gsis ==> NoEmptyMaps(t.gsis[g])
    ensures var u := Write(t, k, newItem);
      NoEmptyMaps(u.items) && forall g :: g in u.gsis ==> NoEmptyMaps(u.gsis[g])
  {
    hide NoEmptyMaps, Insert, Erase, Reindex;
    EraseFinds(t.items, k);
    if newItem.Some? {
      InsertFinds(t.items, k, newItem.value);
    }
    forall g | g in t.gsis
      ensures NoEmptyMaps(Write(t, k, newItem).gsis[g])
    {
      ReindexFinds(t.gsis[g], t.schema.gsis[g], Get(t, k), newItem);
    }
  }

  /** MemoryBackend. */
  class MemoryBackend {
    var tables: map<string, TableData>

    constructor ()
      ensures Valid() && State() == map[]
    {
      tables := map[];
    }

    ghost predicate Valid()
      reads this, tables.Values
    {
      && (forall n :: n in tables ==> tables[n].Valid())
      && (forall m, n :: m in tables && n in tables && m != n ==> tables[m] != tables[n])
    }

    ghost function State(): Database
      reads this, tables.Values
    {
      map n | n in tables :: tables[n].Value()
    }

    /** CreateTable; the Go code panics when the name is taken. */
    method CreateTable(name: string, schema: TableSchema) returns (created: bool)
      requires Valid()
      modifies this
      ensures Valid()
      ensures created <==> name !in old(State())
      ensures State() == if created then old(State())[name := EmptyTable(schema)] else old(State())
    {
      if name in tables {
        return false;
      }
      var td := new TableData(schema);
      tables := tables[name := td];
      created := true;
    }

    method GetItem(get: Read) returns (r: Result<Option<Item>>)
      requires Valid()
      ensures r == if get.table in State() then ReadOf(State()[get.table], get) else Err
    {
      hide ExtractKey, Find, Projection.Projected;
      var name := get.table;
      if name !in tables {
        return Err;
      }
      var td := tables[name];
      var k := ExtractKey(get.key, td.schema.key);
      if k.None? {
        return Err;
      }
      var item := td.GetItem(k.value);
      if item.Some? {
        var result := Projection.ProjectItem(item.value, get.projection, get.names);
        item := Some(result);
      }
      r := Ok(item);
    }

    /** The table that a request names is the only one it changes. */
    lemma Framed(name: string, before: Database)
      requires Valid() && name in tables && before.Keys == tables.Keys
      requires forall n :: n in tables && tables[n] != tables[name] ==> before[n] == tables[n].Value()
      ensures State() == before[name := tables[name].Value()]
    {
    }

    lemma StateIsValid()
      requires Valid()
      ensures ValidDatabase(State())
    {
    }

    method PutItem(name: string, item: Item, cond: string, env: Env) returns (r: Reply)
      requires Valid()
      modifies tables.Values
      ensures Valid() && DatabaseAnswers(old(State()), name, Put(item, cond, env), r, State())
    {
      hide WriteOne, ValidTable, NoEmptyMaps;
      StateIsValid();
      if name !in tables {
        return Invalid;
      }
      ghost var before := State();
      r := tables[name].Put(item, cond, env);
      Framed(name, before);
    }

    method DeleteItem(name: string, key: Item, cond: string, env: Env) returns (r: Reply)
      requires Valid()
      modifies tables.Values
      ensures Valid() && DatabaseAnswers(old(State()), name, Delete(key, cond, env), r, State())
    {
      hide WriteOne, ValidTable, NoEmptyMaps;
      StateIsValid();
      if name !in tables {
        return Invalid;
      }
      ghost var before := State();
      r := tables[name].Delete(key, cond, env);
      Framed(name, before);
    }

    /** UpdateItem; the attributes are those of the item after or before. */
    method UpdateItem(name: string, key: Item, update: string, cond: string, env: Env, values: ReturnValues)
      returns (r: Reply, attributes: Option<Item>)
      requires Valid()
      modifies tables.Values
      ensures Valid() && DatabaseAnswers(old(State()), name, Update(key, update, cond, env), r, State())
      ensures r == Success ==> attributes == Attributes(values, old(State())[name], State()[name], key)
    {
      hide WriteOne, ValidTable, NoEmptyMaps, Attributes;
      StateIsValid();
      if name !in tables {
        return Invalid, None;
      }
      ghost var before := State();
      r, attributes := tables[name].Update(key, update, cond, env, values);
      Framed(name, before);
    }

    /** BatchWriteItem: table by table, write by write, without conditions. */
    method BatchWriteItem(groups: seq<Group>) returns (ok: bool)
      requires Valid()
      modifies tables.Values
      ensures Valid() && ValidDatabase(old(State()))
      ensures BatchWrite(old(State()), groups) == Progress(State(), ok)
    {
      hide Apply, ValidTable, NoEmptyMaps, ApplyOne, ValidDatabase, Flattened, BatchSize;
      StateIsValid();
      ghost var start := State();
      var total := CountWrites(groups);
      if total > 25 {
        return false;
      }
      SizeOfNothing(groups);
      for i := 0 to |groups|
        invariant Valid() && unchanged(this) && ValidDatabase(State())
        invariant ApplyAll(start, Flattened(groups)) == ApplyAll(State(), Flattened(groups[i..]))
      {
        FlattenedStep(State(), groups, i);
        if groups[i].table !in tables {
          return false;
        }
        var applied := WriteGroup(groups[i]);
        StateIsValid();
        if !applied {
          return false;
        }
      }
      FlattenedNothing(groups);
      ok := true;
    }

    /** The part of a batch that is done under one table's lock. */
    method WriteGroup(group: Group) returns (ok: bool)
      requires Valid() && group.table in tables
      modifies tables.Values
      ensures Valid() && ValidDatabase(old(State())) && State().Keys == old(State()).Keys
      ensures ApplyAll(old(State()), On(group.table, group.writes)) == Progress(State(), ok)
    {
      hide Apply, ValidTable, NoEmptyMaps, ApplyOne, ValidDatabase;
      StateIsValid();
      ghost var start := State();
      var name, writes := group.table, group.writes;
      assert writes[0..] == writes;
      for j := 0 to |writes|
        invariant Valid() && unchanged(this) && ValidDatabase(State())
        invariant ApplyAll(start, On(name, writes)) == ApplyAll(State(), On(name, writes[j..]))
      {
        OnStep(State(), name, writes, j);
        var applied := ApplyRequest(Request(name, writes[j]));
        if !applied {
          return false;
        }
        StateIsValid();
      }
      ok := true;
    }

    /** One write of a batch, or of the second pass of a transaction. */
    method ApplyRequest(r: Request) returns (ok: bool)
      requires Valid() && r.table in tables
      modifies tables.Values
      ensures Valid() && ValidDatabase(old(State()))
      ensures match ApplyOne(old(State()), r)
              case Ok(next) => ok && State() == next
              case Err => !ok && State() == old(State())
    {
      hide Apply, ValidTable, NoEmptyMaps;
      StateIsValid();
      ghost var before := State();
      ok := tables[r.table].ApplyOp(r.op);
      Framed(r.table, before);
    }

    /** TransactWriteItems. */
    method TransactWriteItems(rs: seq<Request>) returns (r: TxReply)
      requires Valid()
      modifies tables.Values
      ensures Valid() && ValidDatabase(old(State()))
      ensures match TransactWrite(old(State()), rs)
              case Rejected => r == TxError && State() == old(State())
              case Cancelled(reasons) => r == TxCancelled(reasons) && State() == old(State())
              case Committed(db) => r == TxDone && State() == db
              case Broken(db) => r == TxError && State() == db
    {
      hide Condition, FirstPass, ApplyAll, ValidDatabase, ValidTable, NoEmptyMaps;
      StateIsValid();
      if |rs| > 100 {
        return TxError;
      }
      var known := AllKnown(rs);
      if !known {
        return TxError;
      }
      var passed := CheckAll(rs);
      if passed.Err? {
        return TxError;
      }
      if true in passed.value {
        return TxCancelled(passed.value);
      }
      var ok := ApplyRequests(rs);
      r := if ok then TxDone else TxError;
    }

    /** Resolving the tables. */
    method AllKnown(rs: seq<Request>) returns (known: bool)
      ensures known <==> forall i :: 0 <= i < |rs| ==> rs[i].table in tables
    {
      for i := 0 to |rs|
        invariant forall j :: 0 <= j < i ==> rs[j].table in tables
      {
        if rs[i].table !in tables {
          return false;
        }
      }
      known := true;
    }

    /** The first pass: every condition, on the state before any write. */
    method CheckAll(rs: seq<Request>) returns (r: Result<seq<bool>>)
      requires Valid() && forall i :: 0 <= i < |rs| ==> rs[i].table in tables
      ensures r == FirstPass(State(), rs)
    {
      hide Condition, NoEmptyMaps;
      var reasons := [];
      assert rs[0..] == rs;
      PrependNothing(FirstPass(State(), rs));
      for i := 0 to |rs|
        invariant FirstPass(State(), rs) == Prepend(reasons, FirstPass(State(), rs[i..]))
      {
        FirstPassStep(State(), rs, i);
        var holds := tables[rs[i].table].CheckCondition(rs[i].op);
        if holds.Err? {
          return Err;
        }
        PrependTwice(reasons, !holds.value, FirstPass(State(), rs[i + 1..]));
        reasons := reasons + [!holds.value];
      }
      PrependToNothing(reasons);
      r := Ok(reasons);
    }

    /** The second pass. */
    method ApplyRequests(rs: seq<Request>) returns (ok: bool)
      requires Valid() && forall i :: 0 <= i < |rs| ==> rs[i].table in tables
      modifies tables.Values
      ensures Valid() && ValidDatabase(old(State()))
      ensures ApplyAll(old(State()), rs) == Progress(State(), ok)
    {
      hide Apply, ValidTable, NoEmptyMaps, ApplyOne, ValidDatabase;
      StateIsValid();
      ghost var start := State();
      assert rs[0..] == rs;
      for i := 0 to |rs|
        invariant Valid() && unchanged(this) && ValidDatabase(State())
        invariant ApplyAll(start, rs) == ApplyAll(State(), rs[i..])
      {
        assert rs[i..] == [rs[i]] + rs[i + 1..];
        ApplyAllStep(State(), rs[i], rs[i + 1..]);
        var applied := ApplyRequest(rs[i]);
        StateIsValid();
        if !applied {
          return false;
        }
      }
      ok := true;
    }

    /** TransactGetItems. */
    method TransactGetItems(gets: seq<Read>) returns (r: Result<seq<Option<Item>>>)
      requires Valid()
      ensures r == TransactGet(State(), gets)
    {
      hide ReadOf, NoEmptyMaps;
      if |gets| > 100 {
        return Err;
      }
      for i := 0 to |gets|
        invariant forall j :: 0 <= j < i ==> gets[j].table in tables
      {
        if gets[i].table !in tables {
          return Err;
        }
      }
      r := ReadItems(gets);
    }

    method ReadItems(gets: seq<Read>) returns (r: Result<seq<Option<Item>>>)
      requires Valid() && forall i :: 0 <= i < |gets| ==> gets[i].table in tables
      ensures r == ReadAll(State(), gets)
    {
      hide ReadOf, NoEmptyMaps;
      var responses := [];
      assert gets[0..] == gets;
      PrependNothing(ReadAll(State(), gets));
      for i := 0 to |gets|
        invariant ReadAll(State(), gets) == Prepend(responses, ReadAll(State(), gets[i..]))
      {
        ReadAllStep(State(), gets, i);
        var item := GetItem(gets[i]);
        if item.Err? {
          return Err;
        }
        PrependTwice(responses, item.value, ReadAll(State(), gets[i + 1..]));
        responses := responses + [item.value];
      }
      PrependToNothing(responses);
      r := Ok(responses);
    }
  }

  datatype TxReply = TxDone | TxCancelled(reasons: seq<bool>) | TxError

  method CountWrites(groups: seq<Group>) returns (total: nat)
    ensures total == BatchSize(groups)
  {
    total := 0;
    for i := 0 to |groups|
      invariant total + BatchSize(groups[i..]) == BatchSize(groups)
    {
      SizeStep(groups, i);
      total := total + |groups[i].writes|;
    }
    SizeOfNothing(groups);
  }

  lemma SizeStep(groups: seq<Group>, i: nat)
    requires i < |groups|
    ensures BatchSize(groups[i..]) == |groups[i].writes| + BatchSize(groups[i + 1..])
  {
    assert groups[i..][1..] == groups[i + 1..];
  }

  lemma SizeOfNothing(groups: seq<Group>)
    ensures BatchSize(groups[|groups|..]) == 0 && groups[0..] == groups
  {
  }

  /** One group, then the others. */
  lemma FlattenedStep(db: Database, groups: seq<Group>, i: nat)
    requires ValidDatabase(db) && i < |groups|
    ensures var name, rest := groups[i].table, Flattened(groups[i + 1..]);
      ApplyAll(db, Flattened(groups[i..])) ==
        (if name !in db then Progress(db, false)
         else
           var p := ApplyAll(db, On(name, groups[i].writes));
           if p.ok then ApplyAll(p.db, rest) else p)
  {
    var name, rest, writes := groups[i].table, Flattened(groups[i + 1..]), groups[i].writes;
    assert groups[i..][1..] == groups[i + 1..];
    var look := Check(map[], "", Env(map[], map[]));
    assert ([look] + writes)[1..] == writes;
    assert On(name, [look] + writes) == [Request(name, look)] + On(name, writes);
    Assoc([Request(name, look)], On(name, writes), rest);
    ApplyAllStep(db, Request(name, look), On(name, writes) + rest);
    assert name in db ==> db[name := db[name]] == db;
    hide ApplyAll;
    if name in db {
      ApplyAllConcat(db, On(name, writes), rest);
    }
  }

  lemma {:induction false} ApplyAllConcat(db: Database, a: seq<Request>, b: seq<Request>)
    requires ValidDatabase(db)
    ensures var p := ApplyAll(db, a);
      ApplyAll(db, a + b) == (if p.ok then ApplyAll(p.db, b) else p)
    decreases |a|
  {
    hide ApplyOne, ValidDatabase;
    if a == [] {
      assert a + b == b;
    } else {
      assert (a + b)[1..] == a[1..] + b;
      if ApplyOne(db, a[0]).Ok? {
        ApplyAllConcat(ApplyOne(db, a[0]).value, a[1..], b);
      }
    }
  }

  lemma OnStep(db: Database, name: string, writes: seq<Op>, j: nat)
    requires ValidDatabase(db) && j < |writes|
    ensures var r := Request(name, writes[j]);
      ApplyAll(db, On(name, writes[j..])) ==
        match ApplyOne(db, r) case Ok(next) => ApplyAll(next, On(name, writes[j + 1..])) case Err => Progress(db, false)
  {
    hide ApplyAll, ApplyOne, ValidDatabase;
    assert writes[j..][1..] == writes[j + 1..];
    ApplyAllStep(db, Request(name, writes[j]), On(name, writes[j + 1..]));
  }

  lemma FlattenedNothing(groups: seq<Group>)
    ensures Flattened(groups[|groups|..]) == []
  {
  }
}
