/** Transactions cut into the steps that other clients can see between: each
    condition, each write and each read of memdb/memdb.go on its own. */
module Tasks {
  import opened Base
  import Values
  import opened Store
  import opened Requests

  /** PutItem, DeleteItem and UpdateItem are write tasks of one request
      (Requests.WriteOneIsATransaction). */
  datatype Task = WriteTask(rs: seq<Request>) | ReadTask(gets: seq<Read>)

  datatype Answer =
    | Wrote
    | WasCancelled(reasons: seq<bool>)
    | Refused
    | GotItems(items: seq<Option<Values.Item>>)

  datatype Phase =
    | Checking(i: nat, reasons: seq<bool>)
    | Applying(i: nat)
    | Reading(i: nat, items: seq<Option<Values.Item>>)
    | Finished(answer: Answer)

  // ---- Tables and locks ----

  function Names(task: Task): (names: seq<string>)
    ensures |names| == if task.WriteTask? then |task.rs| else |task.gets|
  {
    match task
    case WriteTask(rs) => seq(|rs|, i requires 0 <= i < |rs| => rs[i].table)
    case ReadTask(gets) => seq(|gets|, i requires 0 <= i < |gets| => gets[i].table)
  }

  /** dedup: the distinct elements in the order of their first occurrences. */
  function Dedup(names: seq<string>): seq<string> {
    if names == [] then []
    else
      var before, last := Dedup(names[..|names| - 1]), names[|names| - 1];
      if last in before then before else before + [last]
  }

  lemma {:induction false} DedupKeepsTheElements(names: seq<string>)
    ensures forall x :: x in Dedup(names) <==> x in names
    ensures forall i, j :: 0 <= i < j < |Dedup(names)| ==> Dedup(names)[i] != Dedup(names)[j]
  {
    if names != [] {
      DedupKeepsTheElements(names[..|names| - 1]);
      assert names == names[..|names| - 1] + [names[|names| - 1]];
    }
  }

  method DedupTables(tables: seq<string>) returns (out: seq<string>)
    ensures out == Dedup(tables)
  {
    var seen := {};
    out := [];
    for i := 0 to |tables|
      invariant out == Dedup(tables[..i])
      invariant seen == set x | x in out
    {
      assert tables[..i + 1][..|tables[..i + 1]| - 1] == tables[..i];
      if tables[i] !in seen {
        seen := seen + {tables[i]};
        out := out + [tables[i]];
      }
    }
    assert tables[..|tables|] == tables;
  }

  /** The locks a task takes, in the order in which it takes them. */
  function Locks(task: Task): seq<string> { Dedup(Names(task)) }

  // ---- Steps ----

  predicate Known(task: Task, names: set<string>) {
    |Names(task)| <= 100 && forall i :: 0 <= i < |Names(task)| ==> Names(task)[i] in names
  }

  ghost predicate Fits(task: Task, db: Database) { ValidDatabase(db) && Known(task, db.Keys) }

  lemma KnownIsResolved(task: Task, db: Database)
    requires Known(task, db.Keys)
    ensures task.WriteTask? ==> Resolved(db, task.rs)
    ensures task.ReadTask? ==> ReadsResolved(db, task.gets)
  {
    assert forall i :: 0 <= i < |Names(task)| ==> Names(task)[i] in db;
    match task
    case WriteTask(rs) => assert forall i :: 0 <= i < |rs| ==> Names(task)[i] == rs[i].table;
    case ReadTask(gets) => assert forall i :: 0 <= i < |gets| ==> Names(task)[i] == gets[i].table;
  }

  function Begin(task: Task): Phase { if task.WriteTask? then Checking(0, []) else Reading(0, []) }

  predicate InPhase(task: Task, phase: Phase) {
    match phase
    case Checking(i, reasons) => task.WriteTask? && i <= |task.rs|
    case Applying(i) => task.WriteTask? && i <= |task.rs|
    case Reading(i, items) => task.ReadTask? && i <= |task.gets|
    case Finished(_) => true
  }

  datatype Moment = Moment(db: Database, phase: Phase)

  /** One step of a task that holds its locks. */
  function Step(task: Task, m: Moment): Moment
    requires Fits(task, m.db) && InPhase(task, m.phase) && !m.phase.Finished?
  {
    KnownIsResolved(task, m.db);
    match m.phase
    case Checking(i, reasons) =>
      if i == |task.rs| then Moment(m.db, if true in reasons then Finished(WasCancelled(reasons)) else Applying(0))
      else (
        match Condition(m.db[task.rs[i].table], task.rs[i].op)
        case Err => Moment(m.db, Finished(Refused))
        case Ok(holds) => Moment(m.db, Checking(i + 1, reasons + [!holds])))
    case Applying(i) =>
      if i == |task.rs| then Moment(m.db, Finished(Wrote))
      else (
        match ApplyOne(m.db, task.rs[i])
        case Err => Moment(m.db, Finished(Refused))
        case Ok(next) => Moment(next, Applying(i + 1)))
    case Reading(i, items) =>
      if i == |task.gets| then Moment(m.db, Finished(GotItems(items)))
      else
        match ReadOf(m.db[task.gets[i].table], task.gets[i])
        case Err => Moment(m.db, Finished(Refused))
        case Ok(item) => Moment(m.db, Reading(i + 1, items + [item]))
  }

  // ---- The whole task at once ----

  datatype Effect = Effect(db: Database, answer: Answer)

  function Perform(task: Task, db: Database): (e: Effect)
    requires ValidDatabase(db)
  {
    match task
    case WriteTask(rs) => (
      match TransactWrite(db, rs)
      case Rejected => Effect(db, Refused)
      case Cancelled(reasons) => Effect(db, WasCancelled(reasons))
      case Committed(next) => Effect(next, Wrote)
      case Broken(next) => Effect(next, Refused))
    case ReadTask(gets) =>
      match TransactGet(db, gets)
      case Ok(items) => Effect(db, GotItems(items))
      case Err => Effect(db, Refused)
  }

  function SecondPass(rs: seq<Request>, db: Database): Effect
    requires ValidDatabase(db)
  {
    var p := ApplyAll(db, rs);
    Effect(p.db, if p.ok then Wrote else Refused)
  }

  /** What is left to do at a moment, done without interruption. */
  function Remaining(task: Task, m: Moment): Effect
    requires Fits(task, m.db) && InPhase(task, m.phase)
  {
    KnownIsResolved(task, m.db);
    match m.phase
    case Checking(i, reasons) => (
      match Prepend(reasons, FirstPass(m.db, task.rs[i..]))
      case Err => Effect(m.db, Refused)
      case Ok(all) => if true in all then Effect(m.db, WasCancelled(all)) else SecondPass(task.rs, m.db))
    case Applying(i) => SecondPass(task.rs[i..], m.db)
    case Reading(i, items) => (
      match Prepend(items, ReadAll(m.db, task.gets[i..]))
      case Err => Effect(m.db, Refused)
      case Ok(all) => Effect(m.db, GotItems(all)))
    case Finished(answer) => Effect(m.db, answer)
  }

  lemma BeginIsTheWhole(task: Task, db: Database)
    requires Fits(task, db)
    ensures InPhase(task, Begin(task)) && Remaining(task, Moment(db, Begin(task))) == Perform(task, db)
  {
    hide FirstPass, ApplyAll, ReadAll, ValidDatabase;
    KnownIsResolved(task, db);
    match task
    case WriteTask(rs) =>
      assert rs[0..] == rs;
      PrependNothing(FirstPass(db, rs));
    case ReadTask(gets) =>
      assert gets[0..] == gets;
      PrependNothing(ReadAll(db, gets));
  }

  /** A step changes nothing about how the task ends. */
  lemma StepKeepsTheEnd(task: Task, m: Moment)
    requires Fits(task, m.db) && InPhase(task, m.phase) && !m.phase.Finished?
    ensures var n := Step(task, m);
      Fits(task, n.db) && n.db.Keys == m.db.Keys && InPhase(task, n.phase) && Remaining(task, n) == Remaining(task, m)
  {
    KnownIsResolved(task, m.db);
    match m.phase
    case Checking(i, reasons) => CheckingKeepsTheEnd(task, m);
    case Applying(i) => ApplyingKeepsTheEnd(task, m);
    case Reading(i, items) => ReadingKeepsTheEnd(task, m);
  }

  lemma CheckingKeepsTheEnd(task: Task, m: Moment)
    requires Fits(task, m.db) && InPhase(task, m.phase) && m.phase.Checking?
    ensures var n := Step(task, m);
      n.db == m.db && InPhase(task, n.phase) && Remaining(task, n) == Remaining(task, m)
  {
    hide Condition, ApplyAll, ReadAll, FirstPass, ValidDatabase, Known;
    KnownIsResolved(task, m.db);
    var i, reasons, rs := m.phase.i, m.phase.reasons, task.rs;
    if i == |rs| {
      FirstPassEnds(m.db, rs);
      PrependToNothing(reasons);
      assert rs[0..] == rs;
    } else {
      FirstPassStep(m.db, rs, i);
      if Condition(m.db[rs[i].table], rs[i].op).Ok? {
        PrependTwice(reasons, !Condition(m.db[rs[i].table], rs[i].op).value, FirstPass(m.db, rs[i + 1..]));
      }
    }
  }

  lemma FirstPassEnds(db: Database, rs: seq<Request>)
    requires forall j :: 0 <= j < |rs| ==> rs[j].table in db
    ensures FirstPass(db, rs[|rs|..]) == Ok([])
  {
  }

  lemma ApplyingKeepsTheEnd(task: Task, m: Moment)
    requires Fits(task, m.db) && InPhase(task, m.phase) && m.phase.Applying?
    ensures var n := Step(task, m);
      Fits(task, n.db) && n.db.Keys == m.db.Keys && InPhase(task, n.phase) && Remaining(task, n) == Remaining(task, m)
  {
    hide Condition, ApplyOne, ReadAll, FirstPass, ValidDatabase, Known;
    KnownIsResolved(task, m.db);
    var i, rs := m.phase.i, task.rs;
    if i < |rs| {
      hide ApplyAll;
      assert rs[i..] == [rs[i]] + rs[i + 1..];
      ApplyAllStep(m.db, rs[i], rs[i + 1..]);
    }
  }

  lemma ReadingKeepsTheEnd(task: Task, m: Moment)
    requires Fits(task, m.db) && InPhase(task, m.phase) && m.phase.Reading?
    ensures var n := Step(task, m);
      n.db == m.db && InPhase(task, n.phase) && Remaining(task, n) == Remaining(task, m)
  {
    hide Condition, ApplyAll, ReadOf, FirstPass, ValidDatabase, Known;
    KnownIsResolved(task, m.db);
    var i, items, gets := m.phase.i, m.phase.items, task.gets;
    if i == |gets| {
      PrependToNothing(items);
    } else {
      ReadAllStep(m.db, gets, i);
      if ReadOf(m.db[gets[i].table], gets[i]).Ok? {
        PrependTwice(items, ReadOf(m.db[gets[i].table], gets[i]).value, ReadAll(m.db, gets[i + 1..]));
      }
    }
  }

  // ---- Locality: a task sees and changes only the tables it locks ----

  ghost predicate Agree(a: Database, b: Database, names: seq<string>) {
    forall n :: n in names ==> n in a && n in b && a[n] == b[n]
  }

  ghost predicate SameOutside(a: Database, b: Database, names: seq<string>) {
    a.Keys == b.Keys && forall n :: n in a && n !in names ==> a[n] == b[n]
  }

  lemma {:induction false} FirstPassIsLocal(a: Database, b: Database, rs: seq<Request>, names: seq<string>)
    requires Agree(a, b, names) && forall i :: 0 <= i < |rs| ==> rs[i].table in names
    ensures (forall i :: 0 <= i < |rs| ==> rs[i].table in a && rs[i].table in b) && FirstPass(a, rs) == FirstPass(b, rs)
  {
    hide Condition;
    if rs != [] {
      FirstPassIsLocal(a, b, rs[1..], names);
    }
  }

  lemma {:induction false} ReadAllIsLocal(a: Database, b: Database, gets: seq<Read>, names: seq<string>)
    requires Agree(a, b, names) && forall i :: 0 <= i < |gets| ==> gets[i].table in names
    ensures (forall i :: 0 <= i < |gets| ==> gets[i].table in a && gets[i].table in b) && ReadAll(a, gets) == ReadAll(b, gets)
  {
    hide ReadOf;
    if gets != [] {
      ReadAllIsLocal(a, b, gets[1..], names);
    }
  }

  lemma ApplyOneIsLocal(a: Database, b: Database, r: Request, names: seq<string>)
    requires ValidDatabase(a) && ValidDatabase(b) && Agree(a, b, names) && r.table in names
    ensures ApplyOne(a, r).Ok? <==> ApplyOne(b, r).Ok?
    ensures ApplyOne(a, r).Ok? ==> Agree(ApplyOne(a, r).value, ApplyOne(b, r).value, names)
    ensures ApplyOne(a, r).Ok? ==> SameOutside(a, ApplyOne(a, r).value, names)
  {
    hide Apply, ValidTable;
  }

  lemma {:induction false} ApplyAllIsLocal(a: Database, b: Database, rs: seq<Request>, names: seq<string>)
    requires ValidDatabase(a) && ValidDatabase(b) && Agree(a, b, names)
    requires forall i :: 0 <= i < |rs| ==> rs[i].table in names
    ensures ApplyAll(a, rs).ok == ApplyAll(b, rs).ok
    ensures Agree(ApplyAll(a, rs).db, ApplyAll(b, rs).db, names)
    ensures SameOutside(a, ApplyAll(a, rs).db, names)
    decreases |rs|
  {
    hide ApplyOne, ValidDatabase;
    if rs != [] {
      ApplyOneIsLocal(a, b, rs[0], names);
      if ApplyOne(a, rs[0]).Ok? {
        ApplyAllIsLocal(ApplyOne(a, rs[0]).value, ApplyOne(b, rs[0]).value, rs[1..], names);
      }
    }
  }

  /** The locks cover every table of the task. */
  lemma LocksCover(task: Task)
    ensures task.WriteTask? ==> forall i :: 0 <= i < |task.rs| ==> task.rs[i].table in Locks(task)
    ensures task.ReadTask? ==> forall i :: 0 <= i < |task.gets| ==> task.gets[i].table in Locks(task)
  {
    DedupKeepsTheElements(Names(task));
    hide Dedup;
    match task
    case WriteTask(rs) => assert forall i :: 0 <= i < |rs| ==> Names(task)[i] == rs[i].table;
    case ReadTask(gets) => assert forall i :: 0 <= i < |gets| ==> Names(task)[i] == gets[i].table;
  }

  lemma CompleteIsLocal(task: Task, a: Database, b: Database, phase: Phase)
    requires Fits(task, a) && Fits(task, b) && InPhase(task, phase) && Agree(a, b, Locks(task))
    ensures var e, f := Remaining(task, Moment(a, phase)), Remaining(task, Moment(b, phase));
      e.answer == f.answer && Agree(e.db, f.db, Locks(task)) && SameOutside(a, e.db, Locks(task))
  {
    hide ApplyAll, FirstPass, ReadAll, Locks, ValidDatabase, Agree, SameOutside, Known;
    KnownIsResolved(task, a);
    KnownIsResolved(task, b);
    LocksCover(task);
    SameAsItself(a, Locks(task));
    match phase
    case Checking(i, reasons) =>
      FirstPassIsLocal(a, b, task.rs[i..], Locks(task));
      ApplyAllIsLocal(a, b, task.rs, Locks(task));
    case Applying(i) =>
      ApplyAllIsLocal(a, b, task.rs[i..], Locks(task));
    case Reading(i, items) =>
      ReadAllIsLocal(a, b, task.gets[i..], Locks(task));
    case Finished(answer) =>
  }

  lemma SameAsItself(a: Database, names: seq<string>)
    ensures SameOutside(a, a, names)
  {
  }

  /** The same for a whole task. */
  lemma RunIsLocal(task: Task, a: Database, b: Database)
    requires Fits(task, a) && Fits(task, b) && Agree(a, b, Locks(task))
    ensures var e, f := Perform(task, a), Perform(task, b);
      e.answer == f.answer && Agree(e.db, f.db, Locks(task)) && SameOutside(a, e.db, Locks(task))
  {
    hide *;
    BeginIsTheWhole(task, a);
    BeginIsTheWhole(task, b);
    CompleteIsLocal(task, a, b, Begin(task));
  }

  lemma StepStaysInside(task: Task, m: Moment)
    requires Fits(task, m.db) && InPhase(task, m.phase) && !m.phase.Finished?
    ensures SameOutside(m.db, Step(task, m).db, Locks(task))
    ensures task.ReadTask? ==> Step(task, m).db == m.db
  {
    hide ReadOf, Condition, Locks, Known;
    KnownIsResolved(task, m.db);
    LocksCover(task);
    if m.phase.Applying? && m.phase.i < |task.rs| {
      ApplyOneIsLocal(m.db, m.db, task.rs[m.phase.i], [task.rs[m.phase.i].table]);
    }
    hide ApplyOne;
  }

  /** Reading tasks and refused tasks change nothing. */
  lemma RunEffects(task: Task, db: Database)
    requires ValidDatabase(db)
    ensures var e := Perform(task, db);
      ValidDatabase(e.db) && e.db.Keys == db.Keys && (task.ReadTask? ==> e.db == db)
    ensures !Known(task, db.Keys) ==> Perform(task, db) == Effect(db, Refused)
  {
    hide ApplyAll, FirstPass, ReadAll, ValidDatabase;
    match task
    case WriteTask(rs) => assert forall i :: 0 <= i < |rs| ==> Names(task)[i] == rs[i].table;
    case ReadTask(gets) => assert forall i :: 0 <= i < |gets| ==> Names(task)[i] == gets[i].table;
  }
}
