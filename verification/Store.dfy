/** One table of the in-memory backend (memdb/memdb.go) as a value: nested
    hash/range maps, and the secondary indexes kept beside them. */
module Store {
  import opened Base
  import opened Values

  /** The names of a table's or an index's key attributes. */
  datatype KeySchema = KeySchema(hash: string, range: Option<string>)

  datatype TableSchema = TableSchema(key: KeySchema, gsis: map<string, KeySchema>)

  /** Hash key string -> range key string -> item. */
  type Rows = map<string, map<string, Item>>

  datatype Table = Table(schema: TableSchema, items: Rows, gsis: map<string, Rows>)

  datatype Key = Key(hash: string, range: string)

  // ---- Keys ----

  /** keyString: "" for values that cannot be keys. */
  function KeyString(av: AttributeValue): string {
    match av
    case S(s) => "S:" + s
    case N(n) => "N:" + n
    case B(b) => "B:" + b
    case _ => ""
  }

  function KeyPart(item: Item, name: string): Option<string> {
    if name in item && KeyString(item[name]) != "" then Some(KeyString(item[name])) else None
  }

  /** extractKey and extractKeyFromDef. */
  function ExtractKey(item: Item, schema: KeySchema): Option<Key> {
    match (KeyPart(item, schema.hash), schema.range)
    case (Some(h), None) => Some(Key(h, "_"))
    case (Some(h), Some(name)) => (
      match KeyPart(item, name)
      case Some(r) => Some(Key(h, r))
      case None => None)
    case _ => None
  }

  // ---- Rows ----

  function Find(rows: Rows, k: Key): Option<Item> {
    if k.hash in rows then Lookup(rows[k.hash], k.range) else None
  }

  function Insert(rows: Rows, k: Key, item: Item): Rows {
    var inner := if k.hash in rows then rows[k.hash] else map[];
    rows[k.hash := inner[k.range := item]]
  }

  /** Deleting the last item of a hash key deletes the inner map too. */
  function Erase(rows: Rows, k: Key): Rows {
    if Find(rows, k).None? then rows
    else
      var inner := rows[k.hash] - {k.range};
      if inner == map[] then rows - {k.hash} else rows[k.hash := inner]
  }

  ghost predicate NoEmptyMaps(rows: Rows) { forall h :: h in rows ==> rows[h] != map[] }

  lemma InsertFinds(rows: Rows, k: Key, item: Item)
    ensures forall l :: Find(Insert(rows, k, item), l) == (if l == k then Some(item) else Find(rows, l))
    ensures NoEmptyMaps(rows) ==> NoEmptyMaps(Insert(rows, k, item))
  {
    assert k.range in Insert(rows, k, item)[k.hash];
  }

  lemma EraseFinds(rows: Rows, k: Key)
    ensures forall l :: Find(Erase(rows, k), l) == (if l == k then None else Find(rows, l))
    ensures NoEmptyMaps(rows) ==> NoEmptyMaps(Erase(rows, k))
  {
    if Find(rows, k).Some? {
      var inner := rows[k.hash] - {k.range};
      forall l
        ensures Find(Erase(rows, k), l) == (if l == k then None else Find(rows, l))
      {
        if l.hash == k.hash && inner == map[] {
          assert l.range !in inner;
        }
      }
    }
  }

  // ---- Indexes ----

  /** updateGSIs on one index: drop the old item's entry, add the new one's. */
  function Reindex(rows: Rows, schema: KeySchema, oldItem: Option<Item>, newItem: Option<Item>): Rows {
    var dropped := match IndexKey(oldItem, schema) case Some(k) => Erase(rows, k) case None => rows;
    match IndexKey(newItem, schema)
    case Some(k) => Insert(dropped, k, newItem.value)
    case None => dropped
  }

  function IndexKey(item: Option<Item>, schema: KeySchema): (k: Option<Key>)
    ensures k.Some? ==> item.Some?
  {
    match item case Some(it) => ExtractKey(it, schema) case None => None
  }

  lemma ReindexFinds(rows: Rows, schema: KeySchema, oldItem: Option<Item>, newItem: Option<Item>)
    ensures forall l :: IndexKey(newItem, schema) == Some(l) ==> Find(Reindex(rows, schema, oldItem, newItem), l) == newItem
    ensures forall l :: IndexKey(newItem, schema) != Some(l) ==>
      Find(Reindex(rows, schema, oldItem, newItem), l) == (if IndexKey(oldItem, schema) == Some(l) then None else Find(rows, l))
    ensures NoEmptyMaps(rows) ==> NoEmptyMaps(Reindex(rows, schema, oldItem, newItem))
  {
    hide ExtractKey, Find, Insert, Erase, NoEmptyMaps;
    var dropped := match IndexKey(oldItem, schema) case Some(k) => Erase(rows, k) case None => rows;
    if IndexKey(oldItem, schema).Some? {
      EraseFinds(rows, IndexKey(oldItem, schema).value);
    }
    if IndexKey(newItem, schema).Some? {
      InsertFinds(dropped, IndexKey(newItem, schema).value, newItem.value);
    }
  }

  // ---- The table ----

  predicate ValidTable(t: Table) { t.gsis.Keys == t.schema.gsis.Keys }

  function EmptyTable(schema: TableSchema): Table {
    Table(schema, map[], map g | g in schema.gsis :: map[])
  }

  function Get(t: Table, k: Key): Option<Item> { Find(t.items, k) }

  /** The one way in which items change: store or delete the item at k, and bring
      every index in step. */
  function Write(t: Table, k: Key, newItem: Option<Item>): (u: Table)
    requires ValidTable(t)
    ensures ValidTable(u) && u.schema == t.schema
  {
    var oldItem := Get(t, k);
    Table(t.schema,
          match newItem case Some(it) => Insert(t.items, k, it) case None => Erase(t.items, k),
          map g | g in t.gsis :: Reindex(t.gsis[g], t.schema.gsis[g], oldItem, newItem))
  }

  lemma WriteFinds(t: Table, k: Key, newItem: Option<Item>)
    requires ValidTable(t)
    ensures forall l :: Get(Write(t, k, newItem), l) == (if l == k then newItem else Get(t, l))
  {
    hide Find, Insert, Erase;
    EraseFinds(t.items, k);
    if newItem.Some? {
      InsertFinds(t.items, k, newItem.value);
    }
  }

  // ---- Index agreement ----

  ghost predicate InBase(t: Table, it: Item) { exists k :: Get(t, k) == Some(it) }

  /** Every entry sits under its own key and is some current base item. */
  ghost predicate SoundIndex(t: Table, rows: Rows, schema: KeySchema) {
    forall k :: Find(rows, k).Some? ==>
      ExtractKey(Find(rows, k).value, schema) == Some(k) && InBase(t, Find(rows, k).value)
  }

  /** Every base item that has an index key is found under it. */
  ghost predicate CompleteIndex(t: Table, rows: Rows, schema: KeySchema) {
    forall b :: IndexKey(Get(t, b), schema).Some? ==> Find(rows, IndexKey(Get(t, b), schema).value) == Get(t, b)
  }

  ghost predicate Sound(t: Table) {
    && ValidTable(t)
    && NoEmptyMaps(t.items)
    && (forall g :: g in t.gsis ==> NoEmptyMaps(t.gsis[g]) && SoundIndex(t, t.gsis[g], t.schema.gsis[g]))
  }

  ghost predicate Complete(t: Table)
    requires ValidTable(t)
  {
    forall g :: g in t.gsis ==> CompleteIndex(t, t.gsis[g], t.schema.gsis[g])
  }

  /** No two base items have the same key in an index. */
  ghost predicate NoCollision(t: Table) {
    forall g :: g in t.schema.gsis ==> NoCollisionIn(t, t.schema.gsis[g])
  }

  ghost predicate NoCollisionIn(t: Table, schema: KeySchema) {
    forall b, c :: IndexKey(Get(t, b), schema).Some? && IndexKey(Get(t, b), schema) == IndexKey(Get(t, c), schema) ==> b == c
  }

  lemma EmptyIsSound(schema: TableSchema)
    ensures Sound(EmptyTable(schema)) && Complete(EmptyTable(schema)) && NoCollision(EmptyTable(schema))
  {
  }

  lemma WriteKeepsSoundIndex(t: Table, k: Key, newItem: Option<Item>, rows: Rows, schema: KeySchema)
    requires ValidTable(t) && SoundIndex(t, rows, schema)
    ensures SoundIndex(Write(t, k, newItem), Reindex(rows, schema, Get(t, k), newItem), schema)
  {
    WriteFinds(t, k, newItem);
    ReindexFinds(rows, schema, Get(t, k), newItem);
    hide Find, Get, Write, Reindex, ExtractKey, ValidTable;
    var u, rows' := Write(t, k, newItem), Reindex(rows, schema, Get(t, k), newItem);
    forall l | Find(rows', l).Some?
      ensures ExtractKey(Find(rows', l).value, schema) == Some(l) && InBase(u, Find(rows', l).value)
    {
      if IndexKey(newItem, schema) == Some(l) {
        assert Get(u, k) == newItem;
      } else {
        var it := Find(rows, l).value;
        var b :| Get(t, b) == Some(it);
        assert b != k;
        assert Get(u, b) == Some(it);
      }
    }
  }

  /** Index soundness is kept by every write, unconditionally. */
  lemma WriteKeepsSound(t: Table, k: Key, newItem: Option<Item>)
    requires Sound(t)
    ensures Sound(Write(t, k, newItem))
  {
    hide SoundIndex, NoEmptyMaps, Insert, Erase, Reindex;
    var u := Write(t, k, newItem);
    EraseFinds(t.items, k);
    if newItem.Some? {
      InsertFinds(t.items, k, newItem.value);
    }
    forall g | g in u.gsis
      ensures NoEmptyMaps(u.gsis[g]) && SoundIndex(u, u.gsis[g], u.schema.gsis[g])
    {
      ReindexFinds(t.gsis[g], t.schema.gsis[g], Get(t, k), newItem);
      WriteKeepsSoundIndex(t, k, newItem, t.gsis[g], t.schema.gsis[g]);
    }
  }

  lemma WriteKeepsCompleteIndex(t: Table, k: Key, newItem: Option<Item>, rows: Rows, schema: KeySchema)
    requires ValidTable(t) && CompleteIndex(t, rows, schema)
    requires NoCollisionIn(t, schema) && NoCollisionIn(Write(t, k, newItem), schema)
    ensures CompleteIndex(Write(t, k, newItem), Reindex(rows, schema, Get(t, k), newItem), schema)
  {
    WriteFinds(t, k, newItem);
    ReindexFinds(rows, schema, Get(t, k), newItem);
    hide Find, Get, Write, Reindex, ExtractKey, ValidTable, IndexKey;
    var u, rows' := Write(t, k, newItem), Reindex(rows, schema, Get(t, k), newItem);
    forall b | IndexKey(Get(u, b), schema).Some?
      ensures Find(rows', IndexKey(Get(u, b), schema).value) == Get(u, b)
    {
      assert Get(u, k) == newItem;
      if b != k {
        assert Get(u, b) == Get(t, b);
        assert IndexKey(Get(t, b), schema) != IndexKey(Get(t, k), schema);
        assert IndexKey(Get(u, b), schema) != IndexKey(newItem, schema);
      }
    }
  }

  /** An index that agrees with the table keeps agreeing as long as no two items
      share an index key, before and after the write. */
  lemma WriteKeepsComplete(t: Table, k: Key, newItem: Option<Item>)
    requires ValidTable(t) && Complete(t) && NoCollision(t) && NoCollision(Write(t, k, newItem))
    ensures Complete(Write(t, k, newItem))
  {
    hide CompleteIndex, NoCollisionIn, Insert, Erase, Reindex;
    var u := Write(t, k, newItem);
    forall g | g in u.gsis
      ensures CompleteIndex(u, u.gsis[g], u.schema.gsis[g])
    {
      assert g in u.schema.gsis && g in t.schema.gsis;
      WriteKeepsCompleteIndex(t, k, newItem, t.gsis[g], t.schema.gsis[g]);
    }
  }

  /** A sound and complete index is exactly the base table re-keyed. */
  lemma IndexIsBaseRekeyed(t: Table, g: string, l: Key, it: Item)
    requires Sound(t) && Complete(t) && g in t.gsis
    ensures Find(t.gsis[g], l) == Some(it) <==> exists b :: Get(t, b) == Some(it) && ExtractKey(it, t.schema.gsis[g]) == Some(l)
  {
    hide Find, Get, ExtractKey, NoEmptyMaps;
    var rows, schema := t.gsis[g], t.schema.gsis[g];
    assert SoundIndex(t, rows, schema) && CompleteIndex(t, rows, schema);
    if Find(rows, l) == Some(it) {
      assert InBase(t, it);
    }
    if b :| Get(t, b) == Some(it) && ExtractKey(it, schema) == Some(l) {
      assert IndexKey(Get(t, b), schema) == Some(l);
    }
  }

  // ---- Runs of writes ----

  ghost predicate IsWrite(t: Table, u: Table) {
    ValidTable(t) && exists k, newItem :: u == Write(t, k, newItem)
  }

  /** A history of table states, each one write after the last. */
  ghost predicate Run(hist: seq<Table>) {
    hist != [] && forall i :: 0 < i < |hist| ==> IsWrite(hist[i - 1], hist[i])
  }

  lemma {:induction false} RunKeepsSound(hist: seq<Table>, n: nat)
    requires Run(hist) && Sound(hist[0]) && n < |hist|
    ensures Sound(hist[n])
  {
    hide Sound;
    if n > 0 {
      RunKeepsSound(hist, n - 1);
      assert IsWrite(hist[n - 1], hist[n]);
      var k, newItem :| hist[n] == Write(hist[n - 1], k, newItem);
      WriteKeepsSound(hist[n - 1], k, newItem);
    }
  }

  /** In every run from an empty table in which no two base items ever share an
      index key, each index is exactly the base table re-keyed, in every state. */
  lemma {:induction false} RunKeepsAgreement(hist: seq<Table>, schema: TableSchema, n: nat)
    requires Run(hist) && hist[0] == EmptyTable(schema) && n < |hist|
    requires forall i :: 0 <= i <= n ==> NoCollision(hist[i])
    ensures Sound(hist[n]) && Complete(hist[n])
  {
    hide Sound, Complete, NoCollision, Write;
    EmptyIsSound(schema);
    RunKeepsSound(hist, n);
    if n > 0 {
      RunKeepsAgreement(hist, schema, n - 1);
      assert IsWrite(hist[n - 1], hist[n]);
      var k, newItem :| hist[n] == Write(hist[n - 1], k, newItem);
      SoundIsValid(hist[n - 1]);
      SoundIsValid(hist[n]);
      WriteKeepsComplete(hist[n - 1], k, newItem);
    }
  }

  lemma SoundIsValid(t: Table)
    requires Sound(t)
    ensures ValidTable(t)
  {
  }

  // ---- Items at their own keys, and when an index can agree at all ----

  ghost predicate AtHome(t: Table) {
    forall k :: Get(t, k).Some? ==> ExtractKey(Get(t, k).value, t.schema.key) == Some(k)
  }

  /** A write leaves every item at its own key exactly when the item it stores
      belongs there. */
  lemma WriteKeepsAtHomeIff(t: Table, k: Key, newItem: Option<Item>)
    requires ValidTable(t) && AtHome(t)
    ensures AtHome(Write(t, k, newItem)) <==> (newItem.Some? ==> ExtractKey(newItem.value, t.schema.key) == Some(k))
  {
    WriteFinds(t, k, newItem);
    hide Get, ExtractKey, Write;
    var u := Write(t, k, newItem);
    assert u.schema == t.schema && Get(u, k) == newItem;
  }

  /** An index cannot hold two items under one key. */
  lemma CompleteNeedsNoCollision(t: Table)
    requires ValidTable(t) && AtHome(t) && Complete(t)
    ensures NoCollision(t)
  {
    hide Get, ExtractKey, Find, IndexKey;
    forall g, b, c | g in t.schema.gsis && IndexKey(Get(t, b), t.schema.gsis[g]).Some?
        && IndexKey(Get(t, b), t.schema.gsis[g]) == IndexKey(Get(t, c), t.schema.gsis[g])
      ensures b == c
    {
      assert g in t.gsis && CompleteIndex(t, t.gsis[g], t.schema.gsis[g]);
      assert Get(t, b) == Get(t, c);
      IndexKeyOfNothing(t.schema.gsis[g]);
      assert Get(t, b).Some?;
    }
  }

  lemma IndexKeyOfNothing(schema: KeySchema)
    ensures IndexKey(None, schema) == None
  {
  }

  /** Over a run whose items stay at their own keys, the indexes agree with the
      table in every state exactly when no state has a collision. */
  lemma RunAgreementIff(hist: seq<Table>, schema: TableSchema)
    requires Run(hist) && hist[0] == EmptyTable(schema)
    requires forall i :: 0 <= i < |hist| ==> AtHome(hist[i])
    ensures (forall i :: 0 <= i < |hist| ==> ValidTable(hist[i]) && Complete(hist[i]))
       <==> (forall i :: 0 <= i < |hist| ==> NoCollision(hist[i]))
  {
    hide AtHome, Complete, NoCollision, ValidTable, EmptyTable, IsWrite;
    if forall i :: 0 <= i < |hist| ==> NoCollision(hist[i]) {
      forall i | 0 <= i < |hist|
        ensures ValidTable(hist[i]) && Complete(hist[i])
      {
        RunKeepsAgreement(hist, schema, i);
        SoundIsValid(hist[i]);
      }
    }
    if forall i :: 0 <= i < |hist| ==> ValidTable(hist[i]) && Complete(hist[i]) {
      forall i | 0 <= i < |hist|
        ensures NoCollision(hist[i])
      {
        CompleteNeedsNoCollision(hist[i]);
      }
    }
  }

  /** A collision outlives itself: once two items have shared an index key, deleting
      one of them leaves the other out of the index, although nothing collides any
      more. */
  lemma CollisionIsRemembered(schema: TableSchema, g: string, a: Key, x: Item, b: Key, y: Item)
    requires g in schema.gsis && a != b
    requires ExtractKey(x, schema.gsis[g]).Some? && ExtractKey(x, schema.gsis[g]) == ExtractKey(y, schema.gsis[g])
    ensures var t := Write(Write(Write(EmptyTable(schema), a, Some(x)), b, Some(y)), b, None);
      && Get(t, a) == Some(x)
      && Get(t, b) == None
      && Find(t.gsis[g], ExtractKey(x, schema.gsis[g]).value) == None
  {
    hide ExtractKey, Find, Insert, Erase, Reindex, Get;
    var t0 := EmptyTable(schema);
    var t1 := Write(t0, a, Some(x));
    var t2 := Write(t1, b, Some(y));
    var t3 := Write(t2, b, None);
    WriteFinds(t0, a, Some(x));
    WriteFinds(t1, b, Some(y));
    WriteFinds(t2, b, None);
    ReindexFinds(t2.gsis[g], schema.gsis[g], Get(t2, b), None);
  }
}
