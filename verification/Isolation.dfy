/** A table of memdb/memdb.go with real sharing: what it keeps is never reachable from
    what a client has, nor from another stored copy. */
module Isolation {
  import opened Base
  import opened Values
  import opened Store
  import opened Parser
  import opened Requests
  import opened Backend
  import opened Projection
  import Evaluation
  import opened Heap
  import opened HeapRead
  import HeapUpdate

  /** A place for an item: in the table itself, or in an index. */
  datatype Slot = Slot(index: Option<string>, key: Key)

  /** The table that the slots stand for. */
  ghost predicate Holds(t: Table, values: map<Slot, Item>) {
    && ValidTable(t)
    && (forall s :: s in values && s.index.Some? ==> s.index.value in t.gsis)
    && (forall k :: Lookup(values, Slot(None, k)) == Get(t, k))
    && (forall g, k :: g in t.gsis ==> Lookup(values, Slot(Some(g), k)) == Find(t.gsis[g], k))
  }

  /** A map that stands for an item; or nothing for nothing. */
  ghost predicate IsItem(item: Option<MapCell>, av: Option<Item>, fp: set<object>)
    reads (if item.Some? then {item.value as object} else {}), fp
  {
    (item.Some? <==> av.Some?) && (item.Some? ==> MapDenotes(item.value.m, av.value, fp))
  }

  /** A stored item: its map, what it stands for, and all else that is reachable. */
  datatype Entry = Entry(cell: MapCell, value: Item, fp: set<object>)

  ghost function Own(e: Entry): set<object> { e.fp + {e.cell as object} }

  ghost predicate EntryOk(e: Entry, repr: set<object>)
    reads repr
  {
    e.cell in repr && e.fp <= repr && DenotesItem(e.cell, e.value, e.fp)
  }

  ghost predicate AllOk(entries: map<Slot, Entry>, repr: set<object>)
    reads repr
  {
    forall s :: s in entries ==> EntryOk(entries[s], repr)
  }

  ghost predicate Separate(entries: map<Slot, Entry>) {
    forall s, r :: s in entries && r in entries && s != r ==> Own(entries[s]) !! Own(entries[r])
  }

  ghost function ItemsIn(entries: map<Slot, Entry>): map<Slot, Item> { map s | s in entries :: entries[s].value }

  ghost predicate Cells(entries: map<Slot, Entry>, cells: map<Slot, MapCell>) {
    cells.Keys == entries.Keys && forall s :: s in cells ==> entries[s].cell == cells[s]
  }

  lemma EntryStaysOk(e: Entry, repr: set<object>, more: set<object>)
    requires EntryOk(e, repr) && repr <= more
    ensures EntryOk(e, more)
  {
    hide DenotesItem;
  }

  lemma AllStayOk(entries: map<Slot, Entry>, repr: set<object>, more: set<object>)
    requires AllOk(entries, repr) && repr <= more
    ensures AllOk(entries, more)
  {
    hide EntryOk;
    forall s | s in entries
      ensures EntryOk(entries[s], more)
    {
      EntryStaysOk(entries[s], repr, more);
    }
  }

  lemma EntryAdded(entries: map<Slot, Entry>, repr: set<object>, s: Slot, e: Entry)
    requires AllOk(entries, repr) && Separate(entries) && EntryOk(e, repr + Own(e)) && Own(e) !! repr
    ensures AllOk(entries[s := e], repr + Own(e)) && Separate(entries[s := e])
    ensures ItemsIn(entries[s := e]) == ItemsIn(entries)[s := e.value]
  {
    AllStayOk(entries, repr, repr + Own(e));
    hide DenotesItem;
    assert forall r :: r in entries ==> Own(entries[r]) <= repr;
  }

  lemma EntryDropped(entries: map<Slot, Entry>, repr: set<object>, s: Slot)
    requires AllOk(entries, repr) && Separate(entries)
    ensures AllOk(entries - {s}, repr) && Separate(entries - {s})
    ensures ItemsIn(entries - {s}) == ItemsIn(entries) - {s}
  {
    hide EntryOk, Own;
  }

  class HeapTable {
    const schema: TableSchema
    /** td.items and the items of every index. */
    var cells: map<Slot, MapCell>
    ghost var entries: map<Slot, Entry>
    /** The table that the slots stand for. */
    ghost var table: Table
    /** All objects that stored items may consist of. */
    ghost var Repr: set<object>
    /** All objects that clients can reach. */
    ghost var shared: set<object>

    /** No two stored items share an object, and nothing stored is in a client's reach. */
    ghost predicate Apart()
      reads this, Repr
    {
      && this !in Repr && this !in shared
      && Cells(entries, cells)
      && AllOk(entries, Repr)
      && Separate(entries)
      && Repr !! shared
    }

    /** What clients reach from what is shared is shared. */
    ghost predicate Valid()
      reads this, Repr, shared
    {
      Apart() && Closed(shared) && Holds(table, Contents()) && table.schema == schema
    }

    ghost function Contents(): map<Slot, Item>
      reads this
    {
      ItemsIn(entries)
    }

    constructor (schema: TableSchema)
      ensures Valid() && fresh(Repr) && table == EmptyTable(schema) && shared == {}
    {
      this.schema := schema;
      cells, entries, Repr, shared, table := map[], map[], {}, {}, EmptyTable(schema);
    }

    // ---- Slots ----

    /** A slot gets a deep copy. */
    method StoreCopy(s: Slot, item: MapCell, ghost av: Item, ghost fp: set<object>)
      requires Apart() && MapDenotes(item.m, av, fp)
      modifies this`cells, this`entries, this`Repr
      ensures Apart() && fresh(Repr - old(Repr)) && old(Repr) <= Repr
      ensures Contents() == old(Contents())[s := av]
    {
      hide DenotesItem, MapDenotes, AllOk, Separate, ItemsIn;
      var copy;
      ghost var fq;
      copy, fq := DeepCopyItem(item, av, fp);
      ghost var e := Entry(copy, av, fq);
      EntryAdded(entries, Repr, s, e);
      cells := cells[s := copy];
      entries := entries[s := e];
      Repr := Repr + Own(e);
    }

    /** A slot loses its entry. */
    method Drop(s: Slot)
      requires Apart()
      modifies this`cells, this`entries
      ensures Apart() && Contents() == old(Contents()) - {s}
    {
      hide AllOk, Separate, ItemsIn;
      EntryDropped(entries, Repr, s);
      cells := cells - {s};
      entries := entries - {s};
    }

    lemma EntryAt(s: Slot)
      requires Apart() && s in cells
      ensures s in entries && entries[s].cell == cells[s] && s in Contents() && Contents()[s] == entries[s].value
      ensures MapDenotes(cells[s].m, entries[s].value, entries[s].fp) && this !in entries[s].fp
    {
      hide MapDenotes;
      assert EntryOk(entries[s], Repr);
    }

    /** td.getItem. */
    method Find(k: Key) returns (item: Option<MapCell>, ghost fp: set<object>)
      requires Apart() && Holds(table, Contents())
      ensures IsItem(item, Get(table, k), fp) && this !in fp
    {
      hide MapDenotes, AllOk, Separate, ItemsIn, Store.Find;
      FoundInBase(table, Contents(), k);
      KeysMatch();
      item, fp := None, {};
      if Slot(None, k) in cells {
        EntryAt(Slot(None, k));
        item, fp := Some(cells[Slot(None, k)]), entries[Slot(None, k)].fp;
      }
    }

    lemma KeysMatch()
      requires Apart()
      ensures Contents().Keys == cells.Keys
    {
      hide AllOk, Separate;
    }

    // ---- Writes ----

    /** storeItem or deleteItem, and updateGSIs: the item is copied once for the table
        and once for each index. */
    method WriteThrough(k: Key, item: Option<MapCell>, ghost av: Option<Item>, ghost fp: set<object>)
      requires Apart() && Holds(table, Contents()) && table.schema == schema
      requires IsItem(item, av, fp) && this !in fp
      modifies this`cells, this`entries, this`Repr, this`table
      ensures Apart() && fresh(Repr - old(Repr)) && ValidTable(old(table)) && Holds(table, Contents())
      ensures table == Write(old(table), k, av)
    {
      hide MapDenotes, AllOk, Separate, ItemsIn, Store.Find, Insert, Erase, ExtractKey, Write, Partly;
      ValidToo(table, Contents());
      var oldItem;
      ghost var oldFp;
      oldItem, oldFp := Find(k);
      if item.Some? {
        StoreCopy(Slot(None, k), item.value, av.value, fp);
      } else {
        Drop(Slot(None, k));
      }
      BaseWritten(table, k, av, old(Contents()), Contents());
      UpdateGSIs(oldItem, Get(table, k), oldFp, item, av, fp, k);
      AllWritten(table, k, av, Contents());
      table := Write(table, k, av);
    }

    method UpdateGSIs(oldItem: Option<MapCell>, ghost oldValue: Option<Item>, ghost oldFp: set<object>,
                      item: Option<MapCell>, ghost av: Option<Item>, ghost fp: set<object>, ghost k: Key)
      requires Apart() && IsItem(oldItem, oldValue, oldFp) && IsItem(item, av, fp) && this !in oldFp + fp
      requires ValidTable(table) && table.schema == schema && oldValue == Get(table, k)
      requires Partly(table, Write(table, k, av), Contents(), schema.gsis.Keys)
      modifies this`cells, this`entries, this`Repr
      ensures Apart() && fresh(Repr - old(Repr))
      ensures Partly(table, Write(table, k, av), Contents(), {})
    {
      hide MapDenotes, AllOk, Separate, ItemsIn, Store.Find, Get, Write, Partly, Dropped, Stored, IndexKey;
      var todo := schema.gsis.Keys;
      while todo != {}
        invariant todo <= schema.gsis.Keys && Apart() && fresh(Repr - old(Repr))
        invariant IsItem(oldItem, oldValue, oldFp) && IsItem(item, av, fp)
        invariant Partly(table, Write(table, k, av), Contents(), todo)
        decreases todo
      {
        var g :| g in todo;
        IndexWritten(table, k, av, g, Contents(), todo);
        UpdateIndex(g, oldItem, oldValue, oldFp, item, av, fp);
        todo := todo - {g};
      }
    }

    /** The body of updateGSIs for one index. */
    method UpdateIndex(g: string, oldItem: Option<MapCell>, ghost oldValue: Option<Item>, ghost oldFp: set<object>,
                       item: Option<MapCell>, ghost av: Option<Item>, ghost fp: set<object>)
      requires Apart() && g in schema.gsis && IsItem(oldItem, oldValue, oldFp) && IsItem(item, av, fp) && this !in oldFp + fp
      modifies this`cells, this`entries, this`Repr
      ensures Apart() && fresh(Repr - old(Repr))
      ensures Contents() == Stored(Dropped(old(Contents()), g, IndexKey(oldValue, schema.gsis[g])), g, IndexKey(av, schema.gsis[g]), av)
    {
      hide MapDenotes, AllOk, Separate, ItemsIn, ExtractKey;
      if oldItem.Some? {
        var at := KeyOf(oldItem.value, schema.gsis[g], oldValue.value, oldFp);
        if at.Some? {
          Drop(Slot(Some(g), at.value));
        }
      }
      if item.Some? {
        var to := KeyOf(item.value, schema.gsis[g], av.value, fp);
        if to.Some? {
          StoreCopy(Slot(Some(g), to.value), item.value, av.value, fp);
        }
      }
    }

    // ---- Requests and responses ----

    /** A map of a request stands for an item; if it does so at all, then with objects
        that clients can reach. */
    lemma Given(cell: MapCell, av: Item, fp: set<object>)
      requires Valid() && cell in shared && MapDenotes(cell.m, av, fp)
      ensures MapDenotes(cell.m, av, fp * shared) && this !in fp * shared && fp * shared !! Repr
    {
      hide MapDenotes, AllOk, Separate, ItemsIn, Holds, ClosedAt;
      MapWithin(cell, av, fp, shared);
    }

    /** A response stands for an item, and all that it consists of is new. */
    ghost predicate Returned(copy: MapCell, av: Item)
      reads this, shared, copy
    {
      copy in shared && MapDenotes(copy.m, av, shared)
    }

    /** A new map goes to the client, with all that can be reached from it. */
    ghost method Release(copy: MapCell, av: Item, fp: set<object>)
      requires Valid() && DenotesItem(copy, av, fp) && copy !in Repr && fp !! Repr && this !in fp
      modifies this`shared
      ensures Valid() && Returned(copy, av) && old(shared) <= shared <= old(shared) + fp + {copy}
    {
      hide MapDenotes, AllOk, Separate, ItemsIn, Holds;
      var s := ReachOfItem(copy, av, fp);
      ClosedPlus(copy, s);
      ClosedUnion(shared, s + {copy});
      MapWithin(copy, av, fp, s + {copy});
      shared := shared + (s + {copy});
      MapDenotesMore(copy.m, av, fp * (s + {copy}), shared);
    }

    /** A client makes an object. */
    ghost method Admit(o: object)
      requires Valid() && o !in Repr && o != this && ClosedAt(o, shared)
      modifies this`shared
      ensures Valid() && shared == old(shared) + {o}
    {
      hide AllOk, Separate, ItemsIn, Holds, ClosedAt;
      ClosedPlus(o, shared);
      shared := shared + {o};
    }

    /** The condition of a request, on what is stored at a key. */
    method CheckCondition(k: Key, cond: string, env: Env) returns (r: Result<bool>)
      requires Apart() && Holds(table, Contents())
      ensures r == EvalCondition(cond, env, OrEmpty(Get(table, k)))
    {
      hide MapDenotes, AllOk, Separate, ItemsIn, Holds, EvalCondition, Store.Find;
      var existing;
      ghost var fp;
      existing, fp := Find(k);
      var item: Item := map[];
      if existing.Some? {
        item := ReadItem(existing.value, Get(table, k).value, fp);
      }
      r := EvalConditionText(cond, env, item);
    }

    /** PutItem. The item stays the client's: the table takes copies. */
    method PutItem(item: MapCell, cond: string, env: Env, ghost av: Item, ghost fp: set<object>) returns (r: Reply)
      requires Valid() && item in shared && MapDenotes(item.m, av, fp)
      modifies this`cells, this`entries, this`Repr, this`table
      ensures Valid() && fresh(Repr - old(Repr)) && ValidTable(old(table))
      ensures TableAnswers(old(table), Op.Put(av, cond, env), r, table)
    {
      hide MapDenotes, AllOk, Separate, ItemsIn, Holds, Write, ExtractKey, EvalCondition, Store.Find;
      Given(item, av, fp);
      ValidToo(table, Contents());
      var k := KeyOf(item, schema.key, av, fp * shared);
      if k.None? {
        return Invalid;
      }
      var ok := CheckCondition(k.value, cond, env);
      if ok.Err? {
        return Invalid;
      }
      if !ok.value {
        return CheckFailed;
      }
      WriteThrough(k.value, Some(item), Some(av), fp * shared);
      r := Success;
    }

    /** DeleteItem. */
    method DeleteItem(key: MapCell, cond: string, env: Env, ghost av: Item, ghost fp: set<object>) returns (r: Reply)
      requires Valid() && key in shared && MapDenotes(key.m, av, fp)
      modifies this`cells, this`entries, this`Repr, this`table
      ensures Valid() && fresh(Repr - old(Repr)) && ValidTable(old(table))
      ensures TableAnswers(old(table), Op.Delete(av, cond, env), r, table)
    {
      hide MapDenotes, AllOk, Separate, ItemsIn, Holds, Write, ExtractKey, EvalCondition, Store.Find;
      Given(key, av, fp);
      ValidToo(table, Contents());
      var k := KeyOf(key, schema.key, av, fp * shared);
      if k.None? {
        return Invalid;
      }
      var ok := CheckCondition(k.value, cond, env);
      if ok.Err? {
        return Invalid;
      }
      if !ok.value {
        return CheckFailed;
      }
      WriteThrough(k.value, None, None, {});
      r := Success;
    }

    /** A stored item on its way out: a projection of a copy. */
    method Response(cell: MapCell, projection: string, names: map<string, string>, ghost item: Item, ghost fp: set<object>)
      returns (result: MapCell)
      requires Valid() && MapDenotes(cell.m, item, fp)
      modifies this`shared
      ensures Valid() && old(shared) <= shared && fresh(shared - old(shared))
      ensures fresh(result) && Returned(result, Projected(item, projection, names))
    {
      hide MapDenotes, AllOk, Separate, ItemsIn, Holds, Projected;
      var copy;
      ghost var fq;
      copy, fq := DeepCopyItem(cell, item, fp);
      result := ProjectOnHeap(copy, projection, names, item, fq);
      Release(result, Projected(item, projection, names), fq);
    }

    /** The items of a Query or Scan, whichever stored items of the table or of an index
        it has chosen. */
    method Responses(slots: seq<Slot>, projection: string, names: map<string, string>) returns (results: seq<MapCell>)
      requires Valid() && forall i :: 0 <= i < |slots| ==> slots[i] in Contents()
      modifies this`shared
      ensures Valid() && old(shared) <= shared && fresh(shared - old(shared)) && |results| == |slots|
      ensures forall i :: 0 <= i < |slots| ==>
        fresh(results[i]) && Returned(results[i], Projected(Contents()[slots[i]], projection, names))
    {
      hide MapDenotes, AllOk, Separate, ItemsIn, Holds, Projected, Closed;
      results := [];
      KeysMatch();
      for i := 0 to |slots|
        invariant Valid() && old(shared) <= shared && fresh(shared - old(shared)) && |results| == i
        invariant forall j :: 0 <= j < i ==>
          fresh(results[j]) && Returned(results[j], Projected(Contents()[slots[j]], projection, names))
      {
        EntryAt(slots[i]);
        ghost var before := shared;
        var result := Response(cells[slots[i]], projection, names, entries[slots[i]].value, entries[slots[i]].fp);
        forall j | 0 <= j < i
          ensures Returned(results[j], Projected(Contents()[slots[j]], projection, names))
        {
          StillReturned(results[j], Projected(Contents()[slots[j]], projection, names), before);
        }
        results := results + [result];
      }
    }

    lemma StillReturned(copy: MapCell, av: Item, before: set<object>)
      requires copy in before && MapDenotes(copy.m, av, before) && before <= shared
      ensures Returned(copy, av)
    {
      MapDenotesMore(copy.m, av, before, shared);
    }

    /** GetItem. */
    method GetItem(key: MapCell, projection: string, names: map<string, string>, ghost av: Item, ghost fp: set<object>)
      returns (r: Result<Option<MapCell>>)
      requires Valid() && key in shared && MapDenotes(key.m, av, fp)
      modifies this`shared
      ensures Valid() && old(shared) <= shared && fresh(shared - old(shared))
      ensures match ReadOne(table, av)
              case Err => r == Err
              case Ok(None) => r == Ok(None)
              case Ok(Some(item)) =>
                r.Ok? && r.value.Some? && fresh(r.value.value) && Returned(r.value.value, Projected(item, projection, names))
    {
      hide MapDenotes, AllOk, Separate, ItemsIn, Holds, ExtractKey, Store.Find, Projected;
      Given(key, av, fp);
      var k := KeyOf(key, schema.key, av, fp * shared);
      if k.None? {
        return Err;
      }
      var found;
      ghost var stored;
      found, stored := Find(k.value);
      if found.None? {
        return Ok(None);
      }
      var result := Response(found.value, projection, names, Get(table, k.value).value, stored);
      r := Ok(Some(result));
    }

    /** The middle of UpdateItem: the update works on a copy of the item, into which
        values of the request go as they are. The old item is another copy. */
    method Evaluate(k: Key, key: MapCell, update: string, env: Env, values: MapCell, ghost av: Item, ghost fp: set<object>)
      returns (updated: Option<MapCell>, oldItem: Option<MapCell>, ghost fq: set<object>, ghost oldFp: set<object>)
      requires Apart() && Holds(table, Contents()) && this !in fp
      requires MapDenotes(key.m, av, fp) && MapDenotes(values.m, env.values, fp)
      ensures IsItem(updated, UpdatedItem(k, update, env, av), fq) && this !in fq
      ensures fresh(oldFp) && (oldItem.Some? <==> Get(table, k).Some?)
      ensures oldItem.Some? ==> fresh(oldItem.value) && DenotesItem(oldItem.value, Get(table, k).value, oldFp)
    {
      hide MapDenotes, AllOk, Separate, ItemsIn, Holds, Store.Find, UpdateEval.ApplyUpdate;
      var existing;
      ghost var stored;
      existing, stored := Find(k);
      ghost var was := Get(table, k);
      var item;
      ghost var copied: set<object>;
      oldItem, oldFp := None, {};
      if existing.Some? {
        item, copied := DeepCopyItem(existing.value, was.value, stored);
        var copy;
        copy, oldFp := DeepCopyItem(existing.value, was.value, stored);
        oldItem := Some(copy);
      } else {
        item, copied := DeepCopyItem(key, av, fp);
      }
      ghost var start := match was case Some(it) => it case None => av;
      Joined(item, start, copied, values, env.values, fp);
      updated, fq := HeapUpdate.ApplyUpdate(update, env, values.m, item, start, fp + copied);
      if updated.None? {
        fq := {};
      }
    }

    ghost function UpdatedItem(k: Key, update: string, env: Env, key: Item): Option<Item>
      reads this
    {
      match UpdateEval.ApplyUpdate(update, env, match Get(table, k) case Some(it) => it case None => key)
      case Ok(item) => Some(item)
      case Err => None
    }

    /** The end of UpdateItem: ALL_NEW is one more copy, ALL_OLD is the old item's. */
    method Respond(ret: ReturnValues, updated: MapCell, oldItem: Option<MapCell>, ghost next: Item, ghost was: Option<Item>, ghost fq: set<object>, ghost oldFp: set<object>)
      returns (attributes: Option<MapCell>)
      requires Valid() && MapDenotes(updated.m, next, fq) && this !in fq && this !in oldFp && oldFp !! Repr
      requires (oldItem.Some? <==> was.Some?) && (oldItem.Some? ==> oldItem.value !in Repr && DenotesItem(oldItem.value, was.value, oldFp))
      modifies this`shared
      ensures Valid() && old(shared) <= shared && fresh(shared - old(shared) - oldFp - (if oldItem.Some? then {oldItem.value} else {}))
      ensures match (match ret case ReturnAllNew => Some(next) case ReturnAllOld => was case ReturnNone => None)
              case None => attributes == None
              case Some(item) => attributes.Some? && Returned(attributes.value, item) && (attributes == oldItem || fresh(attributes.value))
    {
      hide MapDenotes, AllOk, Separate, ItemsIn, Holds;
      attributes := None;
      match ret
      case ReturnAllNew =>
        var copy;
        ghost var fr;
        copy, fr := DeepCopyItem(updated, next, fq);
        Release(copy, next, fr);
        attributes := Some(copy);
      case ReturnAllOld =>
        if oldItem.Some? {
          Release(oldItem.value, was.value, oldFp);
          attributes := oldItem;
        }
      case ReturnNone =>
    }

    /** UpdateItem: the result is stored by copy. */
    method UpdateItem(key: MapCell, update: string, cond: string, names: map<string, string>, values: MapCell, ret: ReturnValues,
                      ghost av: Item, ghost avs: Item, ghost fp: set<object>)
      returns (r: Reply, attributes: Option<MapCell>)
      requires Valid() && key in shared && values in shared && MapDenotes(key.m, av, fp) && MapDenotes(values.m, avs, fp)
      modifies this
      ensures Valid() && fresh(Repr - old(Repr)) && old(shared) <= shared && fresh(shared - old(shared)) && ValidTable(old(table))
      ensures TableAnswers(old(table), Op.Update(av, update, cond, Env(names, avs)), r, table)
      ensures r != Success ==> attributes == None
      ensures r == Success ==>
        match Attributes(ret, old(table), table, av)
        case None => attributes == None
        case Some(item) => attributes.Some? && fresh(attributes.value) && Returned(attributes.value, item)
    {
      hide MapDenotes, AllOk, Separate, ItemsIn, Holds, Write, ExtractKey, EvalCondition, Store.Find, UpdateEval.ApplyUpdate, Closed, DenotesItem, WriteOne, Attributes;
      attributes := None;
      Given(key, av, fp);
      Given(values, avs, fp);
      ValidToo(table, Contents());
      ghost var given := fp * shared;
      var plain := ReadItem(values, avs, given);
      var env := Env(names, plain);
      UpdateAnswers(table, av, update, cond, env, ret);
      var k := KeyOf(key, schema.key, av, given);
      if k.None? {
        return Invalid, None;
      }
      var ok := CheckCondition(k.value, cond, env);
      if ok.Err? {
        return Invalid, None;
      }
      if !ok.value {
        return CheckFailed, None;
      }
      var updated, oldItem;
      ghost var fq, oldFp;
      updated, oldItem, fq, oldFp := Evaluate(k.value, key, update, env, values, av, given);
      if updated.None? {
        return Invalid, None;
      }
      ghost var was := Get(table, k.value);
      ghost var next := UpdatedItem(k.value, update, env, av).value;
      WriteThrough(k.value, updated, Some(next), fq);
      attributes := Respond(ret, updated.value, oldItem, next, was, fq, oldFp);
      r := Success;
    }
  }

  lemma UpdateAnswers(t: Table, key: Item, update: string, cond: string, env: Env, ret: ReturnValues)
    requires ValidTable(t)
    ensures var result := WriteOne(t, Op.Update(key, update, cond, env));
      match ExtractKey(key, t.schema.key)
      case None => result == Error
      case Some(k) =>
        match EvalCondition(cond, env, OrEmpty(Get(t, k)))
        case Err => result == Error
        case Ok(false) => result == ConditionFailed
        case Ok(true) =>
          match UpdateEval.ApplyUpdate(update, env, match Get(t, k) case Some(it) => it case None => key)
          case Err => result == Error
          case Ok(next) =>
            && result == Done(Write(t, k, Some(next)))
            && Attributes(ret, t, result.t, key) == (match ret case ReturnAllNew => Some(next) case ReturnAllOld => Get(t, k) case ReturnNone => None)
  {
    hide ExtractKey, EvalCondition, Store.Find, UpdateEval.ApplyUpdate, Write;
    if ExtractKey(key, t.schema.key).Some? {
      var k := ExtractKey(key, t.schema.key).value;
      forall item: Item
        ensures Get(Write(t, k, Some(item)), k) == Some(item)
      {
        WriteFinds(t, k, Some(item));
      }
    }
  }

  lemma Joined(item: MapCell, start: Item, copied: set<object>, values: MapCell, avs: Item, given: set<object>)
    requires DenotesItem(item, start, copied) && MapDenotes(values.m, avs, given) && item !in given
    ensures DenotesItem(item, start, given + copied) && MapDenotes(values.m, avs, given + copied)
  {
    hide MapDenotes;
    MapDenotesMore(item.m, start, copied, given + copied);
    MapDenotesMore(values.m, avs, given, given + copied);
  }

  // ---- Keys of items on the heap ----

  function HeapKeyString(v: HVal): string
    reads if v.HBytes? then {v.bytes} else {}
  {
    match v
    case Scalar(S(s)) => "S:" + s
    case Scalar(N(n)) => "N:" + n
    case HBytes(a) => "B:" + a[..]
    case _ => ""
  }

  lemma SameKeyString(v: HVal, av: AttributeValue, fp: set<object>)
    requires Denotes(v, av, fp)
    ensures HeapKeyString(v) == KeyString(av)
  {
  }

  /** extractKey and extractKeyFromDef on a map object. */
  method KeyOf(cell: MapCell, def: KeySchema, ghost item: Item, ghost fp: set<object>) returns (k: Option<Key>)
    requires MapDenotes(cell.m, item, fp)
    ensures k == ExtractKey(item, def)
  {
    hide Denotes, KeyString, HeapKeyString;
    if def.hash !in cell.m {
      return None;
    }
    SameKeyString(cell.m[def.hash], item[def.hash], fp);
    var hash := HeapKeyString(cell.m[def.hash]);
    if hash == "" {
      return None;
    }
    if def.range.None? {
      return Some(Key.Key(hash, "_"));
    }
    if def.range.value !in cell.m {
      return None;
    }
    SameKeyString(cell.m[def.range.value], item[def.range.value], fp);
    var rangeKey := HeapKeyString(cell.m[def.range.value]);
    k := if rangeKey == "" then None else Some(Key.Key(hash, rangeKey));
  }

  // ---- What the slots stand for while a write is under way ----

  /** The base table and the indexes that are done are those after the write. */
  ghost predicate Partly(t: Table, after: Table, values: map<Slot, Item>, todo: set<string>) {
    && ValidTable(t) && ValidTable(after) && after.schema == t.schema
    && (forall s :: s in values && s.index.Some? ==> s.index.value in t.gsis)
    && (forall k :: Lookup(values, Slot(None, k)) == Get(after, k))
    && (forall g, k :: g in t.gsis ==> Lookup(values, Slot(Some(g), k)) == Find(if g in todo then t.gsis[g] else after.gsis[g], k))
  }

  lemma FoundInBase(t: Table, values: map<Slot, Item>, k: Key)
    requires Holds(t, values)
    ensures Lookup(values, Slot(None, k)) == Get(t, k)
  {
    hide Find, Get;
  }

  lemma BaseWritten(t: Table, k: Key, av: Option<Item>, before: map<Slot, Item>, values: map<Slot, Item>)
    requires Holds(t, before)
    requires values == match av case Some(item) => before[Slot(None, k) := item] case None => before - {Slot(None, k)}
    ensures Partly(t, Write(t, k, av), values, t.schema.gsis.Keys)
  {
    BaseSlots(before, values, k, av);
    WriteFinds(t, k, av);
    hide Find, Get, Write, Lookup;
    forall l
      ensures Lookup(values, Slot(None, l)) == Get(Write(t, k, av), l)
    {
      assert Lookup(before, Slot(None, l)) == Get(t, l);
    }
  }

  lemma BaseSlots(before: map<Slot, Item>, values: map<Slot, Item>, k: Key, av: Option<Item>)
    requires values == match av case Some(item) => before[Slot(None, k) := item] case None => before - {Slot(None, k)}
    ensures forall s: Slot :: s.index.Some? ==> Lookup(values, s) == Lookup(before, s) && (s in values <==> s in before)
    ensures forall l :: Lookup(values, Slot(None, l)) == (if l == k then av else Lookup(before, Slot(None, l)))
  {
  }

  lemma AllWritten(t: Table, k: Key, av: Option<Item>, values: map<Slot, Item>)
    requires ValidTable(t) && Partly(t, Write(t, k, av), values, {})
    ensures Holds(Write(t, k, av), values)
  {
    hide Find, Get, Lookup;
    var after := Write(t, k, av);
    assert after.gsis.Keys == t.gsis.Keys;
    hide Write;
  }

  function Dropped(values: map<Slot, Item>, g: string, at: Option<Key>): map<Slot, Item> {
    match at case Some(l) => values - {Slot(Some(g), l)} case None => values
  }

  function Stored(values: map<Slot, Item>, g: string, at: Option<Key>, av: Option<Item>): map<Slot, Item> {
    match (at, av) case (Some(l), Some(item)) => values[Slot(Some(g), l) := item] case _ => values
  }

  /** Only slots of index g have changed, and they are those of the reindexed rows. */
  lemma SlotsWritten(before: map<Slot, Item>, g: string, rows: Rows, def: KeySchema, oldItem: Option<Item>, newItem: Option<Item>)
    requires forall l :: Lookup(before, Slot(Some(g), l)) == Find(rows, l)
    ensures var values := Stored(Dropped(before, g, IndexKey(oldItem, def)), g, IndexKey(newItem, def), newItem);
      && (forall s: Slot :: s.index != Some(g) ==> Lookup(values, s) == Lookup(before, s))
      && (forall l :: Lookup(values, Slot(Some(g), l)) == Find(Reindex(rows, def, oldItem, newItem), l))
  {
    ReindexFinds(rows, def, oldItem, newItem);
    hide Find, Reindex, IndexKey;
  }

  lemma IndexWritten(t: Table, k: Key, av: Option<Item>, g: string, before: map<Slot, Item>, todo: set<string>)
    requires ValidTable(t) && g in todo && g in t.schema.gsis && Partly(t, Write(t, k, av), before, todo)
    ensures var def := t.schema.gsis[g];
      Partly(t, Write(t, k, av), Stored(Dropped(before, g, IndexKey(Get(t, k), def)), g, IndexKey(av, def), av), todo - {g})
  {
    hide Find, Get, Write, IndexKey, Reindex, Stored, Dropped, Lookup, Partly;
    IndexBefore(t, Write(t, k, av), before, g, todo);
    SlotsWritten(before, g, t.gsis[g], t.schema.gsis[g], Get(t, k), av);
    IndexAfter(t, k, av, g);
    var def := t.schema.gsis[g];
    StillPartly(t, Write(t, k, av), before, Stored(Dropped(before, g, IndexKey(Get(t, k), def)), g, IndexKey(av, def), av), g, todo);
  }

  lemma IndexBefore(t: Table, after: Table, before: map<Slot, Item>, g: string, todo: set<string>)
    requires Partly(t, after, before, todo) && g in todo && g in t.gsis
    ensures forall l :: Lookup(before, Slot(Some(g), l)) == Find(t.gsis[g], l)
  {
    hide Find, Get, Lookup;
  }

  lemma StillPartly(t: Table, after: Table, before: map<Slot, Item>, values: map<Slot, Item>, g: string, todo: set<string>)
    requires ValidTable(after) && Partly(t, after, before, todo) && g in todo && g in t.gsis && g in after.gsis
    requires forall s: Slot :: s.index != Some(g) ==> Lookup(values, s) == Lookup(before, s)
    requires forall l :: Lookup(values, Slot(Some(g), l)) == Find(after.gsis[g], l)
    ensures Partly(t, after, values, todo - {g})
  {
    hide Find, Get;
    forall s | s in values && s.index.Some?
      ensures s.index.value in t.gsis
    {
      assert s.index != Some(g) ==> Lookup(values, s) == Lookup(before, s);
    }
    hide Lookup;
    forall h, l | h in t.gsis
      ensures Lookup(values, Slot(Some(h), l)) == Find(if h in todo - {g} then t.gsis[h] else after.gsis[h], l)
    {
      assert h != g ==> Lookup(values, Slot(Some(h), l)) == Lookup(before, Slot(Some(h), l));
    }
    forall l
      ensures Lookup(values, Slot(None, l)) == Get(after, l)
    {
      assert Lookup(values, Slot(None, l)) == Lookup(before, Slot(None, l));
    }
  }

  lemma IndexAfter(t: Table, k: Key, av: Option<Item>, g: string)
    requires ValidTable(t) && g in t.gsis
    ensures Write(t, k, av).gsis[g] == Reindex(t.gsis[g], t.schema.gsis[g], Get(t, k), av)
  {
  }

  lemma ValidToo(t: Table, values: map<Slot, Item>)
    requires Holds(t, values)
    ensures ValidTable(t)
  {
  }

  /** Two stored copies never share: not even the table's and an index's copy of one
      item. */
  lemma StoredCopiesAreApart(store: HeapTable, s: Slot, r: Slot)
    requires store.Valid() && s in store.cells && r in store.cells && s != r
    ensures s in store.entries && r in store.entries
    ensures DenotesItem(store.cells[s], store.entries[s].value, store.entries[s].fp)
    ensures DenotesItem(store.cells[r], store.entries[r].value, store.entries[r].fp)
    ensures Own(store.entries[s]) !! Own(store.entries[r]) && Own(store.entries[s]) !! store.shared
  {
    hide DenotesItem, Own;
    assert EntryOk(store.entries[s], store.Repr) && EntryOk(store.entries[r], store.Repr);
    OwnInside(store.entries[s], store.Repr);
  }

  lemma OwnInside(e: Entry, repr: set<object>)
    requires EntryOk(e, repr)
    ensures Own(e) <= repr
  {
    hide DenotesItem;
  }
}
