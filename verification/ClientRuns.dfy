/** A client of a table with real sharing (memdb/memdb.go), over any number of calls:
    it may put objects of its own into each other, into requests, and change at any time
    what it has passed in or been given. */
module ClientRuns {
  import opened Base
  import opened Values
  import opened Store
  import opened Parser
  import opened Requests
  import opened Backend
  import opened Heap
  import opened HeapRead
  import opened Isolation

  /** What a client can do. Values are named by their place among the client's handles;
      an action that does not apply does nothing. A query or scan may choose any stored
      items, of the table or of its indexes. */
  datatype Action =
    | MakeScalar(av: AttributeValue)
    | MakeBytes(bytes: string)
    | MakeStrings(numbers: bool, strs: seq<string>)
    | MakeMap
    | MakeList(ofBytes: bool, size: nat)
    | WriteField(target: nat, name: string, value: nat)
    | RemoveField(target: nat, name: string)
    | WriteElement(target: nat, index: nat, value: nat)
    | WriteByte(target: nat, index: nat, c: char)
    | WriteString(target: nat, index: nat, s: string)
    | ReadField(source: nat, name: string)
    | ReadElement(source: nat, index: nat)
    | PutItem(item: nat, cond: string, env: Env)
    | DeleteItem(key: nat, cond: string, env: Env)
    | UpdateItem(key: nat, update: string, cond: string, names: map<string, string>, values: nat, ret: ReturnValues)
    | GetItem(key: nat, projection: string, names: map<string, string>)
    | QueryOrScan(slots: seq<Slot>, projection: string, names: map<string, string>)

  /** Everything that the handles refer to is shared. */
  ghost predicate Held(handles: seq<HVal>, shared: set<object>) { forall i :: 0 <= i < |handles| ==> Refs(handles[i]) <= shared }

  /** The value of a handle; nothing for a handle that there is not. */
  function At(handles: seq<HVal>, i: nat): HVal { if i < |handles| then handles[i] else Scalar(NULL) }

  lemma HeldAt(handles: seq<HVal>, shared: set<object>, i: nat)
    requires Held(handles, shared)
    ensures Refs(At(handles, i)) <= shared
  {
  }

  ghost predicate Stands(v: HVal, item: Item, s: set<object>)
    reads s
  {
    Denotes(v, M(item), s)
  }

  /** All but the values that handles stand for. */
  predicate SameRequest(action: Action, op: Op) {
    match (action, op)
    case (PutItem(_, cond, env), Put(_, c, e)) => c == cond && e == env
    case (DeleteItem(_, cond, env), Delete(_, c, e)) => c == cond && e == env
    case (UpdateItem(_, update, cond, names, _, _), Update(_, u, c, e)) => u == update && c == cond && e.names == names
    case _ => false
  }

  /** The write that an action asks for: its maps as they stand at this moment. */
  ghost predicate Asks(action: Action, op: Op, handles: seq<HVal>, s: set<object>)
    reads s
  {
    && SameRequest(action, op)
    && match action
       case UpdateItem(h, _, _, _, v, _) => Stands(At(handles, h), op.key, s) && Stands(At(handles, v), op.env.values, s)
       case PutItem(h, _, _) => Stands(At(handles, h), op.item, s)
       case DeleteItem(h, _, _) => Stands(At(handles, h), op.key, s)
       case _ => false
  }

  predicate OpWithin(op: Op, depth: nat) {
    match op
    case Put(item, _, _) => ItemWithin(item, depth)
    case Update(key, _, _, env) => ItemWithin(key, depth) && ItemWithin(env.values, depth)
    case _ => ItemWithin(op.key, depth)
  }

  /** The table after a write. */
  function Outcome(t: Table, op: Op): (u: Table)
    requires ValidTable(t)
    ensures ValidTable(u)
  {
    match WriteOne(t, op)
    case Done(u) => ApplyWrites(t, op); u
    case _ => t
  }

  function Replay(t: Table, log: seq<Op>): (u: Table)
    requires ValidTable(t)
    ensures ValidTable(u)
  {
    if log == [] then t else Outcome(Replay(t, log[..|log| - 1]), log[|log| - 1])
  }

  lemma ReplaySnoc(t: Table, log: seq<Op>, op: Op)
    requires ValidTable(t)
    ensures Replay(t, log + [op]) == Outcome(Replay(t, log), op)
  {
    hide Outcome;
    assert (log + [op])[..|log|] == log;
  }

  lemma Answered(t: Table, op: Op, r: Reply, u: Table)
    requires ValidTable(t) && TableAnswers(t, op, r, u)
    ensures u == Outcome(t, op)
  {
    hide WriteOne;
  }

  // ---- What a client does with its own objects ----

  method WriteMap(store: HeapTable, cell: MapCell, m: map<string, HVal>)
    requires store.Valid() && cell in store.shared && forall k :: k in m ==> Refs(m[k]) <= store.shared
    modifies cell
    ensures store.Valid()
  {
    hide AllOk, Separate, ItemsIn, Holds, ClosedAt;
    cell.m := m;
    forall o | o in store.shared
      ensures ClosedAt(o, store.shared)
    {
      if o == cell {
        CellClosed(cell, store.shared);
      }
    }
  }

  lemma CellClosed(cell: MapCell, s: set<object>)
    requires forall k :: k in cell.m ==> Refs(cell.m[k]) <= s
    ensures ClosedAt(cell, s)
  {
  }

  method WriteItems(store: HeapTable, a: array<HVal>, i: nat, v: HVal)
    requires store.Valid() && a in store.shared && i < a.Length && Refs(v) <= store.shared
    modifies a
    ensures store.Valid()
  {
    hide AllOk, Separate, ItemsIn, Holds, ClosedAt;
    assert ClosedAt(a, store.shared);
    ItemsClosed(a, store.shared);
    a[i] := v;
    forall o | o in store.shared
      ensures ClosedAt(o, store.shared)
    {
      if o == a {
        ItemsClosed(a, store.shared);
      }
    }
  }

  lemma ItemsClosed(a: array<HVal>, s: set<object>)
    ensures ClosedAt(a, s) <==> forall i :: 0 <= i < a.Length ==> Refs(a[i]) <= s
  {
  }

  method WriteBytes(store: HeapTable, a: array<char>, i: nat, c: char)
    requires store.Valid() && a in store.shared && i < a.Length
    modifies a
    ensures store.Valid()
  {
    hide AllOk, Separate, ItemsIn, Holds, ClosedAt;
    assert ClosedAt(a, store.shared);
    a[i] := c;
    forall o | o in store.shared
      ensures ClosedAt(o, store.shared)
    {
      if o == a {
        NoRefs(a, store.shared);
      }
    }
  }

  lemma NoRefs(o: object, s: set<object>)
    requires !(o is MapCell) && !(o is array<HVal>)
    ensures ClosedAt(o, s)
  {
  }

  method WriteStrings(store: HeapTable, a: array<string>, i: nat, x: string)
    requires store.Valid() && a in store.shared && i < a.Length
    modifies a
    ensures store.Valid()
  {
    hide AllOk, Separate, ItemsIn, Holds, ClosedAt;
    a[i] := x;
    forall o | o in store.shared
      ensures ClosedAt(o, store.shared)
    {
      if o == a {
        NoRefs(a, store.shared);
      }
    }
  }

  predicate Makes(action: Action) {
    action.MakeScalar? || action.MakeBytes? || action.MakeStrings? || action.MakeMap? || action.MakeList?
  }

  predicate Touches(action: Action) {
    action.WriteField? || action.RemoveField? || action.WriteElement? || action.WriteByte? || action.WriteString?
  }

  /** New objects of the client's own. */
  method Make(store: HeapTable, action: Action) returns (v: HVal)
    requires store.Valid() && Makes(action)
    modifies store`shared
    ensures store.Valid() && Refs(v) <= store.shared
    ensures old(store.shared) <= store.shared && fresh(store.shared - old(store.shared))
  {
    hide AllOk, Separate, ItemsIn, Holds, ClosedAt;
    match action
    case MakeBytes(bytes) =>
      var a := new char[|bytes|](i requires 0 <= i < |bytes| => bytes[i]);
      NoRefs(a, store.shared);
      store.Admit(a);
      v := HBytes(a);
    case MakeStrings(numbers, strs) =>
      var a := new string[|strs|](i requires 0 <= i < |strs| => strs[i]);
      NoRefs(a, store.shared);
      store.Admit(a);
      v := HStrings(numbers, a);
    case MakeMap =>
      var cell := new MapCell(map[]);
      CellClosed(cell, store.shared);
      store.Admit(cell);
      v := HMap(cell);
    case MakeScalar(av) =>
      v := Scalar(av);
    case MakeList(ofBytes, size) =>
      var a := new HVal[size](_ => Scalar(NULL));
      ItemsClosed(a, store.shared);
      store.Admit(a);
      v := if ofBytes then HByteSet(a) else HList(a);
  }

  /** The elements of a list or of a byte set. */
  function Items(v: HVal): Option<array<HVal>> {
    match v case HList(a) => Some(a) case HByteSet(a) => Some(a) case _ => None
  }

  lemma FieldHeld(cell: MapCell, name: string, s: set<object>)
    requires Closed(s) && cell in s
    ensures forall k :: k in cell.m ==> Refs(cell.m[k]) <= s
  {
    assert ClosedAt(cell, s);
  }

  /** A change to an object that the client has. */
  method Touch(store: HeapTable, handles: seq<HVal>, action: Action)
    requires store.Valid() && Held(handles, store.shared) && Touches(action)
    modifies store.shared
    ensures store.Valid()
  {
    hide HeapTable.Valid, Closed, ClosedAt;
    var v := At(handles, action.target);
    HeldAt(handles, store.shared, action.target);
    match action
    case WriteField(_, name, value) =>
      if v.HMap? {
        HeldAt(handles, store.shared, value);
        ValidCloses(store);
        FieldHeld(v.cell, name, store.shared);
        WriteMap(store, v.cell, v.cell.m[name := At(handles, value)]);
      }
    case RemoveField(_, name) =>
      if v.HMap? {
        ValidCloses(store);
        FieldHeld(v.cell, name, store.shared);
        WriteMap(store, v.cell, v.cell.m - {name});
      }
    case WriteElement(_, index, value) =>
      if Items(v).Some? && index < Items(v).value.Length {
        HeldAt(handles, store.shared, value);
        WriteItems(store, Items(v).value, index, At(handles, value));
      }
    case WriteByte(_, index, c) =>
      if v.HBytes? && index < v.bytes.Length {
        WriteBytes(store, v.bytes, index, c);
      }
    case WriteString(_, index, x) =>
      if v.HStrings? && index < v.strs.Length {
        WriteStrings(store, v.strs, index, x);
      }
    case _ =>
  }

  lemma ValidCloses(store: HeapTable)
    requires store.Valid()
    ensures Closed(store.shared) && store !in store.shared
  {
  }

  /** A value out of an object that the client has. */
  method Take(store: HeapTable, handles: seq<HVal>, action: Action) returns (v: HVal)
    requires store.Valid() && Held(handles, store.shared) && (action.ReadField? || action.ReadElement?)
    ensures Refs(v) <= store.shared
  {
    hide HeapTable.Valid, Closed, ClosedAt;
    var from := At(handles, action.source);
    HeldAt(handles, store.shared, action.source);
    ValidCloses(store);
    v := Scalar(NULL);
    if action.ReadField? {
      if from.HMap? && action.name in from.cell.m {
        FieldHeld(from.cell, action.name, store.shared);
        v := from.cell.m[action.name];
      }
    } else if Items(from).Some? && action.index < Items(from).value.Length {
      v := Items(from).value[action.index];
      ElementHeld(Items(from).value, action.index, store.shared);
    }
  }

  lemma ElementHeld(a: array<HVal>, i: nat, s: set<object>)
    requires Closed(s) && a in s && i < a.Length
    ensures Refs(a[i]) <= s
  {
    assert ClosedAt(a, s);
  }

  // ---- Requests ----

  /** The item that a handle stands for, if it is a map that is finite within `depth`. */
  method Read(handles: seq<HVal>, i: nat, depth: nat, ghost s: set<object>) returns (item: Option<Item>)
    requires Closed(s) && Held(handles, s)
    ensures item.Some? ==> At(handles, i).HMap? && MapDenotes(At(handles, i).cell.m, item.value, s) && Stands(At(handles, i), item.value, s)
    ensures forall av :: Stands(At(handles, i), av, s) && ItemWithin(av, depth) ==> item.Some?
  {
    hide ItemWithin, ClosedAt;
    HeldAt(handles, s, i);
    var v := At(handles, i);
    if !v.HMap? {
      return None;
    }
    assert ClosedAt(v.cell, s);
    item := TryReadMap(v.cell, depth, s);
    assert forall av :: Stands(v, av, s) ==> MapDenotes(v.cell.m, av, s);
  }

  predicate Writes(action: Action) { action.PutItem? || action.DeleteItem? || action.UpdateItem? }

  /** One write request. It is made unless what it passes is not a finite map, and then
      with what its maps stand for now. */
  method Write(store: HeapTable, handles: seq<HVal>, action: Action, depth: nat) returns (wrote: Option<Op>, now: seq<HVal>)
    requires store.Valid() && Held(handles, store.shared) && Writes(action)
    modifies store
    ensures store.Valid() && Held(now, store.shared) && handles <= now
    ensures old(store.shared) <= store.shared && fresh(store.shared - old(store.shared)) && fresh(store.Repr - old(store.Repr))
    ensures ValidTable(old(store.table))
    ensures match wrote
            case Some(op) =>
              && SameRequest(action, op) && old(Asks(action, op, handles, store.shared))
              && store.table == Outcome(old(store.table), op)
            case None => store.table == old(store.table)
    ensures forall op :: old(Asks(action, op, handles, store.shared)) && OpWithin(op, depth) ==> wrote.Some?
  {
    hide HeapTable.Valid, Closed, ClosedAt, Stands, TableAnswers, Outcome, ItemWithin, MapDenotes, HeapTable.Returned;
    ValidCloses(store);
    IsValid(store);
    now := handles;
    match action
    case PutItem(i, cond, env) =>
      var item := Read(handles, i, depth, store.shared);
      if item.None? {
        return None, handles;
      }
      HeldAt(handles, store.shared, i);
      var op := Op.Put(item.value, cond, env);
      ghost var before := store.table;
      var r := store.PutItem(At(handles, i).cell, cond, env, item.value, store.shared);
      Answered(before, op, r, store.table);
      wrote := Some(op);
    case DeleteItem(i, cond, env) =>
      var key := Read(handles, i, depth, store.shared);
      if key.None? {
        return None, handles;
      }
      HeldAt(handles, store.shared, i);
      var op := Op.Delete(key.value, cond, env);
      ghost var before := store.table;
      var r := store.DeleteItem(At(handles, i).cell, cond, env, key.value, store.shared);
      Answered(before, op, r, store.table);
      wrote := Some(op);
    case UpdateItem(i, update, cond, names, values, ret) =>
      wrote, now := Update(store, handles, action, depth);
  }

  method Update(store: HeapTable, handles: seq<HVal>, action: Action, depth: nat) returns (wrote: Option<Op>, now: seq<HVal>)
    requires store.Valid() && Held(handles, store.shared) && action.UpdateItem?
    modifies store
    ensures store.Valid() && Held(now, store.shared) && handles <= now
    ensures old(store.shared) <= store.shared && fresh(store.shared - old(store.shared)) && fresh(store.Repr - old(store.Repr))
    ensures ValidTable(old(store.table))
    ensures match wrote
            case Some(op) =>
              && SameRequest(action, op) && old(Asks(action, op, handles, store.shared))
              && store.table == Outcome(old(store.table), op)
            case None => store.table == old(store.table)
    ensures forall op :: old(Asks(action, op, handles, store.shared)) && OpWithin(op, depth) ==> wrote.Some?
  {
    hide HeapTable.Valid, Closed, ClosedAt, Stands, TableAnswers, Outcome, ItemWithin, MapDenotes;
    ValidCloses(store);
    IsValid(store);
    now := handles;
    var key := Read(handles, action.key, depth, store.shared);
    var values := Read(handles, action.values, depth, store.shared);
    if key.None? || values.None? {
      return None, handles;
    }
    HeldAt(handles, store.shared, action.key);
    HeldAt(handles, store.shared, action.values);
    var op := Op.Update(key.value, action.update, action.cond, Env(action.names, values.value));
    ghost var before := store.table;
    var r, attributes := store.UpdateItem(At(handles, action.key).cell, action.update, action.cond, action.names, At(handles, action.values).cell,
      action.ret, key.value, values.value, store.shared);
    Answered(before, op, r, store.table);
    wrote := Some(op);
    if attributes.Some? {
      now := handles + [HMap(attributes.value)];
    }
  }

  lemma IsValid(store: HeapTable)
    requires store.Valid()
    ensures ValidTable(store.table)
  {
    ValidToo(store.table, store.Contents());
  }

  /** A read: a response is one more handle. */
  method Fetch(store: HeapTable, handles: seq<HVal>, action: Action, depth: nat) returns (now: seq<HVal>)
    requires store.Valid() && Held(handles, store.shared) && action.GetItem?
    modifies store`shared
    ensures store.Valid() && Held(now, store.shared) && handles <= now
    ensures old(store.shared) <= store.shared && fresh(store.shared - old(store.shared))
  {
    hide HeapTable.Valid, Closed, ClosedAt, Stands, ItemWithin, MapDenotes, ReadOne, Projection.Projected;
    ValidCloses(store);
    now := handles;
    var key := Read(handles, action.key, depth, store.shared);
    if key.None? {
      return handles;
    }
    HeldAt(handles, store.shared, action.key);
    var r := store.GetItem(At(handles, action.key).cell, action.projection, action.names, key.value, store.shared);
    if r.Ok? && r.value.Some? {
      now := handles + [HMap(r.value.value)];
    }
  }

  /** The items of a query or scan are as many handles. */
  method FetchAll(store: HeapTable, handles: seq<HVal>, action: Action) returns (now: seq<HVal>)
    requires store.Valid() && Held(handles, store.shared) && action.QueryOrScan?
    modifies store`shared
    ensures store.Valid() && Held(now, store.shared) && handles <= now
    ensures old(store.shared) <= store.shared && fresh(store.shared - old(store.shared))
  {
    hide HeapTable.Valid, MapDenotes, Projection.Projected;
    var slots: seq<Slot> := [];
    for i := 0 to |action.slots|
      invariant forall j :: 0 <= j < |slots| ==> slots[j] in store.cells
    {
      if action.slots[i] in store.cells {
        slots := slots + [action.slots[i]];
      }
    }
    CellsAreContents(store);
    var results := store.Responses(slots, action.projection, action.names);
    now := handles;
    for i := 0 to |results|
      invariant Held(now, store.shared) && handles <= now
    {
      assert store.Returned(results[i], Projection.Projected(store.Contents()[slots[i]], action.projection, action.names));
      now := now + [HMap(results[i])];
    }
  }

  lemma CellsAreContents(store: HeapTable)
    requires store.Valid()
    ensures store.Contents().Keys == store.cells.Keys
  {
    store.KeysMatch();
  }

  // ---- Runs ----

  /** Any one action. Only a write request changes the table, and it does so by the value
      of its item at this moment. */
  method Step(store: HeapTable, handles: seq<HVal>, action: Action, depth: nat) returns (wrote: Option<Op>, now: seq<HVal>)
    requires store.Valid() && Held(handles, store.shared)
    modifies store, store.shared
    ensures store.Valid() && Held(now, store.shared) && handles <= now
    ensures old(store.shared) <= store.shared && fresh(store.shared - old(store.shared)) && fresh(store.Repr - old(store.Repr))
    ensures ValidTable(old(store.table))
    ensures match wrote
            case Some(op) =>
              && SameRequest(action, op) && old(Asks(action, op, handles, store.shared))
              && store.table == Outcome(old(store.table), op)
            case None => store.table == old(store.table)
    ensures forall op :: old(Asks(action, op, handles, store.shared)) && OpWithin(op, depth) ==> wrote.Some?
  {
    hide HeapTable.Valid, Stands, Outcome, ItemWithin;
    IsValid(store);
    wrote, now := None, handles;
    if Writes(action) {
      wrote, now := Write(store, handles, action, depth);
    } else if action.GetItem? {
      now := Fetch(store, handles, action, depth);
    } else if action.QueryOrScan? {
      now := FetchAll(store, handles, action);
    } else if Makes(action) {
      var v := Make(store, action);
      now := handles + [v];
    } else if Touches(action) {
      ValidCloses(store);
      Touch(store, handles, action);
    } else {
      var v := Take(store, handles, action);
      now := handles + [v];
    }
  }

  /** The writes of a log belong to actions of the run, in their order. */
  predicate Logged(log: seq<Op>, actions: seq<Action>) {
    if actions == [] then log == []
    else
      var (before, action) := (actions[..|actions| - 1], actions[|actions| - 1]);
      || Logged(log, before)
      || (log != [] && SameRequest(action, log[|log| - 1]) && Logged(log[..|log| - 1], before))
  }

  lemma LoggedMore(log: seq<Op>, actions: seq<Action>, i: nat, wrote: Option<Op>)
    requires i < |actions| && Logged(log, actions[..i]) && (wrote.Some? ==> SameRequest(actions[i], wrote.value))
    ensures Logged(if wrote.Some? then log + [wrote.value] else log, actions[..i + 1])
  {
    hide SameRequest;
    assert actions[..i + 1][..i] == actions[..i];
    if wrote.Some? {
      assert (log + [wrote.value])[..|log|] == log;
    }
  }

  /** Whatever a client does, nothing that is stored is ever within its reach, and the
      table is at every moment what its write requests have made of it, one by one, each
      with the value that it had when the client made the request. */
  method Run(store: HeapTable, start: seq<HVal>, actions: seq<Action>, depth: nat) returns (log: seq<Op>, handles: seq<HVal>)
    requires store.Valid() && Held(start, store.shared)
    modifies store, store.shared
    ensures store.Valid() && Held(handles, store.shared) && start <= handles
    ensures ValidTable(old(store.table)) && store.table == Replay(old(store.table), log) && Logged(log, actions)
  {
    hide HeapTable.Valid, Outcome, Logged, SameRequest;
    IsValid(store);
    ghost var first := store.table;
    log, handles := [], start;
    assert actions[..0] == [];
    NothingLogged(first);
    for i := 0 to |actions|
      invariant store.Valid() && Held(handles, store.shared) && start <= handles
      invariant old(store.shared) <= store.shared && fresh(store.shared - old(store.shared))
      invariant store.table == Replay(first, log) && Logged(log, actions[..i])
    {
      var wrote, now := Step(store, handles, actions[i], depth);
      LoggedMore(log, actions, i, wrote);
      if wrote.Some? {
        ReplaySnoc(first, log, wrote.value);
        log := log + [wrote.value];
      }
      handles := now;
    }
    assert actions[..|actions|] == actions;
  }

  lemma NothingLogged(t: Table)
    requires ValidTable(t)
    ensures Logged([], []) && Replay(t, []) == t
  {
  }
}
