/** Clients interleaved on the table locks of memdb/memdb.go. Every run ends in
    the tables, and gives the answers, of the same tasks one after another. */
module Serial {
  import opened Base
  import opened Requests
  import opened Tasks

  datatype Client =
    | Waiting
    | Locking(n: nat)
    | Working(phase: Phase)
    | Releasing(n: nat, answer: Answer)
    | Done(answer: Answer)

  /** `order` is a history variable: the clients in the order in which their last
      step under all their locks ended. */
  datatype World = World(db: Database, clients: seq<Client>, order: seq<nat>)

  /** What the clients are about to do, and the tables they start from. */
  datatype Setup = Setup(tasks: seq<Task>, db: Database)

  // ---- Locks ----

  /** The tables that a client has locked. */
  function Held(task: Task, client: Client): seq<string> {
    match client
    case Locking(n) => if n <= |Locks(task)| then Locks(task)[..n] else []
    case Working(_) => Locks(task)
    case Releasing(n, _) => if n <= |Locks(task)| then Locks(task)[n..] else []
    case _ => []
  }

  predicate Conflict(s: Task, t: Task) { s.WriteTask? || t.WriteTask? }

  /** Whether a read-write mutex lets client c in: nobody, c itself included, may
      hold it in a conflicting mode. */
  predicate Free(setup: Setup, w: World, c: nat, name: string)
    requires c < |w.clients| == |setup.tasks|
  {
    forall d :: 0 <= d < |w.clients| && Conflict(setup.tasks[c], setup.tasks[d]) ==> name !in Held(setup.tasks[d], w.clients[d])
  }

  // ---- Steps ----

  ghost predicate Shaped(setup: Setup, w: World) {
    && |w.clients| == |setup.tasks|
    && ValidDatabase(w.db)
    && forall c :: 0 <= c < |w.clients| ==> ClientShaped(setup.tasks[c], w.db.Keys, w.clients[c])
  }

  predicate ClientShaped(task: Task, names: set<string>, client: Client) {
    match client
    case Locking(n) => Known(task, names) && n <= |Locks(task)|
    case Working(phase) => Known(task, names) && InPhase(task, phase)
    case Releasing(n, _) => n <= |Locks(task)|
    case _ => true
  }

  function Move(w: World, c: nat, client: Client): World
    requires c < |w.clients|
  {
    w.(clients := w.clients[c := client])
  }

  /** The step that client c can take, if it is not blocked or done. */
  function Act(setup: Setup, w: World, c: nat): Option<World>
    requires Shaped(setup, w) && c < |w.clients|
  {
    var task := setup.tasks[c];
    match w.clients[c]
    case Waiting =>
      if Known(task, w.db.Keys) then Some(Move(w, c, Locking(0)))
      else Some(Move(w, c, Client.Done(Refused)).(order := w.order + [c]))
    case Locking(n) =>
      if n == |Locks(task)| then Some(Move(w, c, Working(Begin(task))))
      else if Free(setup, w, c, Locks(task)[n]) then Some(Move(w, c, Locking(n + 1)))
      else None
    case Working(Finished(answer)) => Some(Move(w, c, Releasing(0, answer)).(order := w.order + [c]))
    case Working(phase) =>
      var m := Step(task, Moment(w.db, phase));
      Some(Move(w, c, Working(m.phase)).(db := m.db))
    case Releasing(n, answer) =>
      Some(Move(w, c, if n == |Locks(task)| then Client.Done(answer) else Releasing(n + 1, answer)))
    case Done(_) => None
  }

  // ---- The serial reference ----

  function Serially(setup: Setup, order: seq<nat>): (db: Database)
    requires ValidDatabase(setup.db) && forall i :: 0 <= i < |order| ==> order[i] < |setup.tasks|
    ensures ValidDatabase(db) && db.Keys == setup.db.Keys
  {
    if order == [] then setup.db
    else
      var before := Serially(setup, order[..|order| - 1]);
      RunEffects(setup.tasks[order[|order| - 1]], before);
      Perform(setup.tasks[order[|order| - 1]], before).db
  }

  predicate Orders(setup: Setup, order: seq<nat>) {
    && (forall i :: 0 <= i < |order| ==> order[i] < |setup.tasks|)
    && (forall i, j :: 0 <= i < j < |order| ==> order[i] != order[j])
  }

  /** The answer that the i-th client of the order gets when the tasks run one after
      another. */
  function SerialAnswer(setup: Setup, order: seq<nat>, i: nat): Answer
    requires ValidDatabase(setup.db) && Orders(setup, order) && i < |order|
  {
    Perform(setup.tasks[order[i]], Serially(setup, order[..i])).answer
  }

  // ---- The invariant ----

  predicate Ended(client: Client) { client.Releasing? || client.Done? }

  ghost predicate Listed(setup: Setup, clients: seq<Client>, order: seq<nat>) {
    && |clients| == |setup.tasks|
    && Orders(setup, order)
    && forall c :: 0 <= c < |clients| ==> (c in order <==> Ended(clients[c]))
  }

  /** No two clients hold a table in conflicting modes. */
  ghost predicate Exclusive(tasks: seq<Task>, clients: seq<Client>)
    requires |clients| == |tasks|
  {
    forall c, d, n :: 0 <= c < |clients| && 0 <= d < |clients| && c != d && Conflict(tasks[c], tasks[d])
      ==> !(n in Held(tasks[c], clients[c]) && n in Held(tasks[d], clients[d]))
  }

  predicate Writes(task: Task, client: Client, name: string) {
    client.Working? && task.WriteTask? && name in Locks(task)
  }

  /** A client is writing to the table. */
  ghost predicate Busy(tasks: seq<Task>, clients: seq<Client>, name: string)
    requires |clients| == |tasks|
  {
    exists c :: 0 <= c < |clients| && Writes(tasks[c], clients[c], name)
  }

  /** Tables that nobody is writing to are those of the serial run so far. */
  ghost predicate QuietTables(tasks: seq<Task>, clients: seq<Client>, db: Database, serial: Database)
    requires |clients| == |tasks|
  {
    db.Keys == serial.Keys && forall n :: n in serial && !Busy(tasks, clients, n) ==> db[n] == serial[n]
  }

  /** What a working client has left to do ends as its whole task would, run now on
      the serial tables. */
  ghost predicate OnCourse(task: Task, client: Client, db: Database, serial: Database) {
    client.Working? ==>
      && Fits(task, db)
      && Fits(task, serial)
      && InPhase(task, client.phase)
      && var e, f := Remaining(task, Moment(db, client.phase)), Perform(task, serial);
      e.answer == f.answer && Agree(e.db, f.db, Locks(task))
  }

  ghost predicate AllOnCourse(tasks: seq<Task>, clients: seq<Client>, db: Database, serial: Database)
    requires |clients| == |tasks|
  {
    forall c :: 0 <= c < |clients| ==> OnCourse(tasks[c], clients[c], db, serial)
  }

  predicate HasAnswered(client: Client, answer: Answer) { Ended(client) && client.answer == answer }

  ghost predicate Answered(setup: Setup, clients: seq<Client>, order: seq<nat>)
    requires ValidDatabase(setup.db) && Listed(setup, clients, order)
  {
    forall i :: 0 <= i < |order| ==> HasAnswered(clients[order[i]], SerialAnswer(setup, order, i))
  }

  ghost predicate Inv(setup: Setup, w: World) {
    && ValidDatabase(setup.db)
    && Shaped(setup, w)
    && Listed(setup, w.clients, w.order)
    && Exclusive(setup.tasks, w.clients)
    && QuietTables(setup.tasks, w.clients, w.db, Serially(setup, w.order))
    && AllOnCourse(setup.tasks, w.clients, w.db, Serially(setup, w.order))
    && Answered(setup, w.clients, w.order)
  }

  function Start(setup: Setup): World { World(setup.db, seq(|setup.tasks|, i => Waiting), []) }

  lemma StartInv(setup: Setup)
    requires ValidDatabase(setup.db)
    ensures Inv(setup, Start(setup))
  {
    hide ValidDatabase, Perform, Remaining, Locks;
  }

  lemma InvMeans(setup: Setup, w: World)
    requires Inv(setup, w)
    ensures ValidDatabase(setup.db) && Shaped(setup, w)
    ensures |w.clients| == |setup.tasks|
    ensures forall i :: 0 <= i < |w.order| ==> w.order[i] < |setup.tasks|
    ensures Listed(setup, w.clients, w.order) && Orders(setup, w.order)
    ensures Exclusive(setup.tasks, w.clients)
    ensures QuietTables(setup.tasks, w.clients, w.db, Serially(setup, w.order))
    ensures AllOnCourse(setup.tasks, w.clients, w.db, Serially(setup, w.order))
    ensures Answered(setup, w.clients, w.order)
    ensures w.db.Keys == setup.db.Keys
  {
    hide Shaped, Exclusive, AllOnCourse, Answered, ValidDatabase, Serially;
  }

  lemma InvHolds(setup: Setup, w: World)
    requires ValidDatabase(setup.db) && Shaped(setup, w)
    requires Listed(setup, w.clients, w.order)
    requires |w.clients| == |setup.tasks| && Exclusive(setup.tasks, w.clients)
    requires Orders(setup, w.order) && QuietTables(setup.tasks, w.clients, w.db, Serially(setup, w.order))
    requires AllOnCourse(setup.tasks, w.clients, w.db, Serially(setup, w.order))
    requires Answered(setup, w.clients, w.order)
    ensures Inv(setup, w)
  {
    hide Shaped, Exclusive, QuietTables, AllOnCourse, Answered, ValidDatabase, Serially;
  }

  // ---- Each part of it, when one client changes ----

  lemma ShapedAfter(setup: Setup, w: World, c: nat, client: Client, db: Database, order: seq<nat>)
    requires Shaped(setup, w) && c < |w.clients| && ValidDatabase(db) && db.Keys == w.db.Keys
    requires ClientShaped(setup.tasks[c], w.db.Keys, client)
    ensures Shaped(setup, World(db, w.clients[c := client], order))
  {
    hide ClientShaped, ValidDatabase;
  }

  lemma ClientIsShaped(setup: Setup, w: World, c: nat)
    requires Shaped(setup, w) && c < |w.clients|
    ensures |w.clients| == |setup.tasks| && ClientShaped(setup.tasks[c], w.db.Keys, w.clients[c]) && ValidDatabase(w.db)
  {
    hide ClientShaped, ValidDatabase;
  }

  lemma ListedAfter(setup: Setup, clients: seq<Client>, order: seq<nat>, c: nat, client: Client)
    requires ValidDatabase(setup.db) && Listed(setup, clients, order) && c < |clients| && Answered(setup, clients, order)
    requires Ended(client) == Ended(clients[c]) && (Ended(client) ==> client.answer == clients[c].answer)
    ensures Listed(setup, clients[c := client], order) && Answered(setup, clients[c := client], order)
  {
    hide ValidDatabase, SerialAnswer, Orders;
    var after := clients[c := client];
    assert Listed(setup, after, order);
    forall i | 0 <= i < |order|
      ensures order[i] < |clients| && HasAnswered(after[order[i]], SerialAnswer(setup, order, i))
    {
      OrderInRange(setup, clients, order, i);
    }
  }

  lemma OrderInRange(setup: Setup, clients: seq<Client>, order: seq<nat>, i: nat)
    requires Listed(setup, clients, order) && i < |order|
    ensures order[i] < |clients|
  {
  }

  lemma GrowOrder(setup: Setup, clients: seq<Client>, order: seq<nat>, c: nat)
    requires ValidDatabase(setup.db) && Listed(setup, clients, order) && c < |clients| && !Ended(clients[c])
    ensures Orders(setup, order) && Orders(setup, order + [c]) && (order + [c])[..|order|] == order
    ensures Serially(setup, order + [c]) == Perform(setup.tasks[c], Serially(setup, order)).db
    ensures SerialAnswer(setup, order + [c], |order|) == Perform(setup.tasks[c], Serially(setup, order)).answer
  {
    hide Perform, ValidDatabase;
    assert (order + [c])[..|order|] == order;
  }

  lemma AnswersSoFar(setup: Setup, order: seq<nat>, c: nat, i: nat)
    requires ValidDatabase(setup.db) && Orders(setup, order) && Orders(setup, order + [c]) && i < |order|
    ensures SerialAnswer(setup, order + [c], i) == SerialAnswer(setup, order, i)
  {
    hide Perform, ValidDatabase, Serially;
    assert (order + [c])[..i] == order[..i];
  }

  lemma ListedGrows(setup: Setup, clients: seq<Client>, order: seq<nat>, c: nat, client: Client)
    requires ValidDatabase(setup.db) && Listed(setup, clients, order) && Answered(setup, clients, order) && c < |clients| && !Ended(clients[c])
    requires Orders(setup, order) && HasAnswered(client, Perform(setup.tasks[c], Serially(setup, order)).answer)
    ensures Listed(setup, clients[c := client], order + [c]) && Answered(setup, clients[c := client], order + [c])
  {
    GrowOrder(setup, clients, order, c);
    hide Perform, Serially, ValidDatabase, SerialAnswer;
    var after := clients[c := client];
    assert Listed(setup, after, order + [c]);
    forall i | 0 <= i < |order + [c]|
      ensures HasAnswered(after[(order + [c])[i]], SerialAnswer(setup, order + [c], i))
    {
      if i < |order| {
        AnswersSoFar(setup, order, c, i);
        assert order[i] in order;
      }
    }
  }

  /** A client that holds no more than before is in nobody's way. */
  lemma ReleaseKeepsExclusive(tasks: seq<Task>, clients: seq<Client>, c: nat, client: Client)
    requires |clients| == |tasks| && c < |clients| && Exclusive(tasks, clients)
    requires forall n :: n in Held(tasks[c], client) ==> n in Held(tasks[c], clients[c])
    ensures Exclusive(tasks, clients[c := client])
  {
    hide Held, Conflict;
  }

  lemma HeldShrinks(task: Task, from: Client, to: Client)
    requires !from.Waiting? && !from.Done?
    requires from.Locking? ==> from.n == |Locks(task)| && to.Working?
    requires from.Working? ==> to.Working? || (to.Releasing? && to.n == 0)
    requires from.Releasing? ==> to.Done? || (to.Releasing? && to.n == from.n + 1)
    ensures forall n :: n in Held(task, to) ==> n in Held(task, from)
  {
    hide Locks;
    var locks := Locks(task);
    if from.Locking? {
      assert locks[..from.n] == locks;
    }
    if to.Releasing? && from.Releasing? && to.n <= |locks| {
      assert locks[from.n..][1..] == locks[to.n..];
    }
  }

  lemma HoldsNothing(task: Task, client: Client)
    requires client == Locking(0) || client.Done? || client.Waiting?
    ensures Held(task, client) == []
  {
  }

  lemma AcquireKeepsExclusive(setup: Setup, w: World, c: nat, n: nat)
    requires |w.clients| == |setup.tasks| && c < |w.clients| && Exclusive(setup.tasks, w.clients)
    requires w.clients[c] == Locking(n) && n < |Locks(setup.tasks[c])| && Free(setup, w, c, Locks(setup.tasks[c])[n])
    ensures Exclusive(setup.tasks, w.clients[c := Locking(n + 1)])
  {
    var task := setup.tasks[c];
    assert Held(task, Locking(n + 1)) == Held(task, Locking(n)) + [Locks(task)[n]];
    hide Held, Locks;
    var after := w.clients[c := Locking(n + 1)];
    forall d, m | 0 <= d < |w.clients| && d != c && Conflict(task, setup.tasks[d])
      ensures !(m in Held(task, after[c]) && m in Held(setup.tasks[d], after[d]))
    {
      assert after[d] == w.clients[d];
    }
  }

  lemma BusyAfter(tasks: seq<Task>, clients: seq<Client>, c: nat, client: Client, n: string)
    requires |clients| == |tasks| && c < |clients|
    requires Writes(tasks[c], client, n) == Writes(tasks[c], clients[c], n)
    ensures Busy(tasks, clients[c := client], n) == Busy(tasks, clients, n)
  {
    hide Writes;
    var after := clients[c := client];
    assert forall d :: 0 <= d < |clients| && d != c ==> after[d] == clients[d];
    if Busy(tasks, clients, n) {
      var d :| 0 <= d < |clients| && Writes(tasks[d], clients[d], n);
      assert Writes(tasks[d], after[d], n);
    }
  }

  lemma BusyGrows(tasks: seq<Task>, clients: seq<Client>, c: nat, client: Client, n: string)
    requires |clients| == |tasks| && c < |clients| && !clients[c].Working?
    ensures Busy(tasks, clients, n) ==> Busy(tasks, clients[c := client], n)
  {
    hide Locks;
    var after := clients[c := client];
    if Busy(tasks, clients, n) {
      var d :| 0 <= d < |clients| && Writes(tasks[d], clients[d], n);
      assert after[d] == clients[d];
    }
  }

  lemma QuietAfter(tasks: seq<Task>, clients: seq<Client>, db: Database, serial: Database, c: nat, client: Client)
    requires |clients| == |tasks| && c < |clients| && QuietTables(tasks, clients, db, serial) && !clients[c].Working?
    ensures QuietTables(tasks, clients[c := client], db, serial)
  {
    hide Busy;
    forall n | Busy(tasks, clients, n)
      ensures Busy(tasks, clients[c := client], n)
    {
      BusyGrows(tasks, clients, c, client, n);
    }
  }

  lemma OnCourseAfter(tasks: seq<Task>, clients: seq<Client>, db: Database, serial: Database, c: nat, client: Client)
    requires |clients| == |tasks| && c < |clients|
    requires forall d :: 0 <= d < |clients| && d != c ==> OnCourse(tasks[d], clients[d], db, serial)
    requires OnCourse(tasks[c], client, db, serial)
    ensures AllOnCourse(tasks, clients[c := client], db, serial)
  {
    hide OnCourse;
  }

  lemma AllOnCourseMeans(tasks: seq<Task>, clients: seq<Client>, db: Database, serial: Database)
    requires |clients| == |tasks| && AllOnCourse(tasks, clients, db, serial)
    ensures forall d :: 0 <= d < |clients| ==> OnCourse(tasks[d], clients[d], db, serial)
  {
    hide OnCourse;
  }

  lemma IdleIsOnCourse(task: Task, client: Client, db: Database, serial: Database)
    requires !client.Working?
    ensures OnCourse(task, client, db, serial)
  {
  }

  // ---- Every step keeps it ----

  /** Steps that only move one client, outside the locked part. */
  lemma QuietMove(setup: Setup, w: World, c: nat, client: Client)
    requires Inv(setup, w) && c < |w.clients| == |setup.tasks|
    requires !w.clients[c].Working? && !client.Working? && ClientShaped(setup.tasks[c], w.db.Keys, client)
    requires Ended(client) == Ended(w.clients[c]) && (Ended(client) ==> client.answer == w.clients[c].answer)
    requires Exclusive(setup.tasks, w.clients[c := client])
    ensures Inv(setup, World(w.db, w.clients[c := client], w.order))
  {
    hide *;
    InvMeans(setup, w);
    var serial := Serially(setup, w.order);
    ClientIsShaped(setup, w, c);
    ShapedAfter(setup, w, c, client, w.db, w.order);
    ListedAfter(setup, w.clients, w.order, c, client);
    QuietAfter(setup.tasks, w.clients, w.db, serial, c, client);
    AllOnCourseMeans(setup.tasks, w.clients, w.db, serial);
    IdleIsOnCourse(setup.tasks[c], client, w.db, serial);
    OnCourseAfter(setup.tasks, w.clients, w.db, serial, c, client);
    InvHolds(setup, World(w.db, w.clients[c := client], w.order));
  }

  lemma LocksAreKnown(task: Task, names: set<string>)
    requires Known(task, names)
    ensures forall n :: n in Locks(task) ==> n in names
  {
    DedupKeepsTheElements(Names(task));
  }

  lemma HeldWhenWorking(task: Task, client: Client)
    requires client.Working? || client == Locking(|Locks(task)|)
    ensures Held(task, client) == Locks(task)
  {
  }

  /** With all its locks, a client finds its tables in the serial state. */
  lemma LockedTablesAreSerial(tasks: seq<Task>, clients: seq<Client>, c: nat, db: Database, serial: Database)
    requires |clients| == |tasks| && c < |clients| && Exclusive(tasks, clients) && QuietTables(tasks, clients, db, serial)
    requires clients[c] == Locking(|Locks(tasks[c])|) && Known(tasks[c], db.Keys)
    ensures Agree(db, serial, Locks(tasks[c]))
  {
    LocksAreKnown(tasks[c], db.Keys);
    HeldWhenWorking(tasks[c], clients[c]);
    hide Locks, Held, Known;
    forall n | n in Locks(tasks[c])
      ensures !Busy(tasks, clients, n)
    {
      forall d | 0 <= d < |clients|
        ensures !Writes(tasks[d], clients[d], n)
      {
        if clients[d].Working? {
          HeldWhenWorking(tasks[d], clients[d]);
        }
      }
    }
  }

  lemma EntryIsOnCourse(task: Task, db: Database, serial: Database)
    requires Fits(task, db) && ValidDatabase(serial) && serial.Keys == db.Keys && Agree(db, serial, Locks(task))
    ensures InPhase(task, Begin(task)) && OnCourse(task, Working(Begin(task)), db, serial)
  {
    BeginIsTheWhole(task, db);
    hide ValidDatabase, Remaining, Perform, Locks, Known, Agree, InPhase, Begin;
    RunIsLocal(task, db, serial);
  }

  /** The last lock is held: the client starts on its task. */
  lemma EnterKeepsInv(setup: Setup, w: World, c: nat)
    requires Inv(setup, w) && c < |w.clients| == |setup.tasks| && w.clients[c] == Locking(|Locks(setup.tasks[c])|)
    ensures Inv(setup, World(w.db, w.clients[c := Working(Begin(setup.tasks[c]))], w.order))
  {
    hide *;
    InvMeans(setup, w);
    var task, serial := setup.tasks[c], Serially(setup, w.order);
    var client := Working(Begin(task));
    ClientIsShaped(setup, w, c);
    LockingMeansKnown(task, w.db, w.clients[c]);
    LockedTablesAreSerial(setup.tasks, w.clients, c, w.db, serial);
    EntryIsOnCourse(task, w.db, serial);
    WorkingIsShaped(task, w.db.Keys, Begin(task));
    ShapedAfter(setup, w, c, client, w.db, w.order);
    NotEnded(w.clients[c]);
    NotEnded(client);
    ListedAfter(setup, w.clients, w.order, c, client);
    HeldShrinks(task, w.clients[c], client);
    ReleaseKeepsExclusive(setup.tasks, w.clients, c, client);
    QuietAfter(setup.tasks, w.clients, w.db, serial, c, client);
    AllOnCourseMeans(setup.tasks, w.clients, w.db, serial);
    OnCourseAfter(setup.tasks, w.clients, w.db, serial, c, client);
    InvHolds(setup, World(w.db, w.clients[c := client], w.order));
  }

  lemma NotEnded(client: Client)
    requires client.Working? || client.Locking? || client.Waiting?
    ensures !Ended(client)
  {
  }

  lemma LockingMeansKnown(task: Task, db: Database, client: Client)
    requires ValidDatabase(db) && ClientShaped(task, db.Keys, client) && (client.Locking? || client.Working?)
    ensures Known(task, db.Keys) && Fits(task, db) && (client.Working? ==> InPhase(task, client.phase))
  {
  }

  lemma WorkingIsShaped(task: Task, names: set<string>, phase: Phase)
    requires Known(task, names) && InPhase(task, phase)
    ensures ClientShaped(task, names, Working(phase))
  {
  }

  lemma LocksAreApart(tasks: seq<Task>, clients: seq<Client>, c: nat, d: nat)
    requires |clients| == |tasks| && Exclusive(tasks, clients) && c < |clients| && d < |clients| && c != d
    requires clients[c].Working? && clients[d].Working? && tasks[c].WriteTask?
    ensures forall n :: n in Locks(tasks[d]) ==> n !in Locks(tasks[c])
  {
    HeldWhenWorking(tasks[c], clients[c]);
    HeldWhenWorking(tasks[d], clients[d]);
    hide Locks, Held;
  }

  lemma AgreeApart(a: Database, b: Database, mine: seq<string>, names: seq<string>)
    requires SameOutside(a, b, mine) && forall n :: n in names ==> n in a && n !in mine
    ensures Agree(a, b, names) && Agree(b, a, names)
  {
  }

  /** What a writer does to its own tables does not concern another working client. */
  lemma StaysOnCourse(tasks: seq<Task>, clients: seq<Client>, c: nat, d: nat, db: Database, db': Database, serial: Database)
    requires |clients| == |tasks| && Exclusive(tasks, clients) && c < |clients| && d < |clients| && c != d && clients[c].Working?
    requires OnCourse(tasks[d], clients[d], db, serial) && ValidDatabase(db')
    requires SameOutside(db, db', Locks(tasks[c])) && (tasks[c].ReadTask? ==> db' == db)
    ensures OnCourse(tasks[d], clients[d], db', serial)
  {
    if clients[d].Working? && tasks[c].WriteTask? {
      LocksAreApart(tasks, clients, c, d);
      hide ValidDatabase, Remaining, Perform, Locks, Known, Exclusive, Agree;
      LocksAreKnown(tasks[d], db.Keys);
      AgreeApart(db, db', Locks(tasks[c]), Locks(tasks[d]));
      CompleteIsLocal(tasks[d], db, db', clients[d].phase);
      AgreeTrans(tasks[d], clients[d].phase, db, db', serial);
    }
  }

  lemma AgreeTrans(task: Task, phase: Phase, db: Database, db': Database, serial: Database)
    requires Fits(task, db) && Fits(task, db') && Fits(task, serial) && InPhase(task, phase)
    requires Agree(Remaining(task, Moment(db, phase)).db, Remaining(task, Moment(db', phase)).db, Locks(task))
    requires Agree(Remaining(task, Moment(db, phase)).db, Perform(task, serial).db, Locks(task))
    ensures Agree(Remaining(task, Moment(db', phase)).db, Perform(task, serial).db, Locks(task))
  {
    hide ValidDatabase, Remaining, Perform, Locks, Known;
  }

  /** Nor does the growing of the serial run by that writer. */
  lemma StaysOnCourseSerially(tasks: seq<Task>, clients: seq<Client>, c: nat, d: nat, db: Database, serial: Database, serial': Database)
    requires |clients| == |tasks| && Exclusive(tasks, clients) && c < |clients| && d < |clients| && c != d && clients[c].Working?
    requires OnCourse(tasks[d], clients[d], db, serial) && ValidDatabase(serial')
    requires SameOutside(serial, serial', Locks(tasks[c])) && (tasks[c].ReadTask? ==> serial' == serial)
    ensures OnCourse(tasks[d], clients[d], db, serial')
  {
    if clients[d].Working? && tasks[c].WriteTask? {
      LocksAreApart(tasks, clients, c, d);
      hide ValidDatabase, Remaining, Perform, Locks, Known, Exclusive, Agree;
      LocksAreKnown(tasks[d], serial.Keys);
      AgreeApart(serial, serial', Locks(tasks[c]), Locks(tasks[d]));
      RunIsLocal(tasks[d], serial, serial');
      AgreeTransSerially(tasks[d], clients[d].phase, db, serial, serial');
    }
  }

  lemma AgreeTransSerially(task: Task, phase: Phase, db: Database, serial: Database, serial': Database)
    requires Fits(task, db) && Fits(task, serial) && Fits(task, serial') && InPhase(task, phase)
    requires Agree(Perform(task, serial).db, Perform(task, serial').db, Locks(task))
    requires Agree(Remaining(task, Moment(db, phase)).db, Perform(task, serial).db, Locks(task))
    ensures Agree(Remaining(task, Moment(db, phase)).db, Perform(task, serial').db, Locks(task))
  {
    hide ValidDatabase, Remaining, Perform, Locks, Known;
  }

  lemma OwnStepOnCourse(task: Task, phase: Phase, db: Database, serial: Database)
    requires Fits(task, db) && InPhase(task, phase) && !phase.Finished? && OnCourse(task, Working(phase), db, serial)
    ensures var m := Step(task, Moment(db, phase));
      && Fits(task, m.db)
      && m.db.Keys == db.Keys
      && InPhase(task, m.phase)
      && OnCourse(task, Working(m.phase), m.db, serial)
  {
    hide Remaining, Perform, Locks, Known, ValidDatabase, InPhase, Step;
    StepKeepsTheEnd(task, Moment(db, phase));
  }

  lemma WriterStepIsQuiet(tasks: seq<Task>, clients: seq<Client>, c: nat, client: Client, db: Database, db': Database, serial: Database)
    requires |clients| == |tasks| && c < |clients| && clients[c].Working? && client.Working?
    requires QuietTables(tasks, clients, db, serial)
    requires SameOutside(db, db', Locks(tasks[c])) && (tasks[c].ReadTask? ==> db' == db)
    ensures QuietTables(tasks, clients[c := client], db', serial)
  {
    hide Busy, Locks;
    forall n | n in serial && !Busy(tasks, clients[c := client], n)
      ensures db'[n] == serial[n]
    {
      BusyAfter(tasks, clients, c, client, n);
      if n in Locks(tasks[c]) && tasks[c].WriteTask? {
        WritingIsBusy(tasks, clients, c, n);
      }
    }
  }

  lemma WritingIsBusy(tasks: seq<Task>, clients: seq<Client>, c: nat, n: string)
    requires |clients| == |tasks| && c < |clients| && Writes(tasks[c], clients[c], n)
    ensures Busy(tasks, clients, n)
  {
  }

  /** A working client's own steps keep it on course, and stay out of the way of the
      other working clients. */
  lemma StepKeepsInv(setup: Setup, w: World, c: nat)
    requires Inv(setup, w) && c < |w.clients| == |setup.tasks| && w.clients[c].Working? && !w.clients[c].phase.Finished?
    ensures Fits(setup.tasks[c], w.db) && InPhase(setup.tasks[c], w.clients[c].phase)
    ensures var m := Step(setup.tasks[c], Moment(w.db, w.clients[c].phase));
      Inv(setup, World(m.db, w.clients[c := Working(m.phase)], w.order))
  {
    hide *;
    InvMeans(setup, w);
    var task, phase, serial := setup.tasks[c], w.clients[c].phase, Serially(setup, w.order);
    ClientIsShaped(setup, w, c);
    LockingMeansKnown(task, w.db, w.clients[c]);
    AllOnCourseMeans(setup.tasks, w.clients, w.db, serial);
    var m := Step(task, Moment(w.db, phase));
    var client := Working(m.phase);
    OwnStepOnCourse(task, phase, w.db, serial);
    StepStaysInside(task, Moment(w.db, phase));
    LockingMeansKnownAgain(task, m.db);
    WorkingIsShaped(task, w.db.Keys, m.phase);
    ShapedAfter(setup, w, c, client, m.db, w.order);
    NotEnded(w.clients[c]);
    NotEnded(client);
    ListedAfter(setup, w.clients, w.order, c, client);
    HeldShrinks(task, w.clients[c], client);
    ReleaseKeepsExclusive(setup.tasks, w.clients, c, client);
    WriterStepIsQuiet(setup.tasks, w.clients, c, client, w.db, m.db, serial);
    forall d | 0 <= d < |w.clients| && d != c
      ensures OnCourse(setup.tasks[d], w.clients[d], m.db, serial)
    {
      StaysOnCourse(setup.tasks, w.clients, c, d, w.db, m.db, serial);
    }
    OnCourseAfter(setup.tasks, w.clients, m.db, serial, c, client);
    InvHolds(setup, World(m.db, w.clients[c := client], w.order));
  }

  lemma LockingMeansKnownAgain(task: Task, db: Database)
    requires Fits(task, db)
    ensures ValidDatabase(db) && Known(task, db.Keys)
  {
  }

  lemma OwnAnswer(task: Task, client: Client, db: Database, serial: Database)
    requires client.Working? && client.phase.Finished? && OnCourse(task, client, db, serial)
    ensures Fits(task, serial) && client.phase.answer == Perform(task, serial).answer
    ensures Agree(db, Perform(task, serial).db, Locks(task))
  {
    hide Perform, ValidDatabase, Locks, Agree, Known;
  }

  lemma AgreesWithItself(db: Database, task: Task)
    requires Known(task, db.Keys)
    ensures Agree(db, db, Locks(task))
  {
    LocksAreKnown(task, db.Keys);
  }

  /** The serial run grows by a task: outside its tables nothing changes. */
  lemma PerformStaysInside(task: Task, serial: Database)
    requires Fits(task, serial)
    ensures var next := Perform(task, serial).db;
      ValidDatabase(next) && next.Keys == serial.Keys && SameOutside(serial, next, Locks(task)) && (task.ReadTask? ==> next == serial)
  {
    hide *;
    LockingMeansKnownAgain(task, serial);
    RunEffects(task, serial);
    AgreesWithItself(serial, task);
    RunIsLocal(task, serial, serial);
  }

  lemma EndIsQuiet(tasks: seq<Task>, clients: seq<Client>, c: nat, client: Client, db: Database, serial: Database, next: Database)
    requires |clients| == |tasks| && c < |clients| && clients[c].Working? && !client.Working?
    requires QuietTables(tasks, clients, db, serial) && next.Keys == serial.Keys
    requires SameOutside(serial, next, Locks(tasks[c])) && (tasks[c].ReadTask? ==> next == serial)
    requires Agree(db, next, Locks(tasks[c]))
    ensures QuietTables(tasks, clients[c := client], db, next)
  {
    hide Busy, Locks;
    forall n | n in next && !Busy(tasks, clients[c := client], n)
      ensures db[n] == next[n]
    {
      if n !in Locks(tasks[c]) || tasks[c].ReadTask? {
        BusyAfter(tasks, clients, c, client, n);
      }
    }
  }

  /** The end of a task: the serial run grows by this client. */
  lemma EndKeepsInv(setup: Setup, w: World, c: nat)
    requires Inv(setup, w) && c < |w.clients| == |setup.tasks| && w.clients[c].Working? && w.clients[c].phase.Finished?
    ensures Inv(setup, World(w.db, w.clients[c := Releasing(0, w.clients[c].phase.answer)], w.order + [c]))
  {
    hide *;
    InvMeans(setup, w);
    var task, serial := setup.tasks[c], Serially(setup, w.order);
    var client := Releasing(0, w.clients[c].phase.answer);
    AllOnCourseMeans(setup.tasks, w.clients, w.db, serial);
    OwnAnswer(task, w.clients[c], w.db, serial);
    PerformStaysInside(task, serial);
    var next := Perform(task, serial).db;
    NotEnded(w.clients[c]);
    GrowOrder(setup, w.clients, w.order, c);
    ReleasingHasAnswered(client, Perform(task, serial).answer);
    ListedGrows(setup, w.clients, w.order, c, client);
    ClientIsShaped(setup, w, c);
    ReleasingIsShaped(task, w.db.Keys, client);
    ShapedAfter(setup, w, c, client, w.db, w.order + [c]);
    HeldShrinks(task, w.clients[c], client);
    ReleaseKeepsExclusive(setup.tasks, w.clients, c, client);
    EndIsQuiet(setup.tasks, w.clients, c, client, w.db, serial, next);
    forall d | 0 <= d < |w.clients| && d != c
      ensures OnCourse(setup.tasks[d], w.clients[d], w.db, next)
    {
      StaysOnCourseSerially(setup.tasks, w.clients, c, d, w.db, serial, next);
    }
    IdleIsOnCourse(task, client, w.db, next);
    OnCourseAfter(setup.tasks, w.clients, w.db, next, c, client);
    InvHolds(setup, World(w.db, w.clients[c := client], w.order + [c]));
  }

  lemma ReleasingHasAnswered(client: Client, answer: Answer)
    requires (client.Releasing? || client.Done?) && client.answer == answer
    ensures HasAnswered(client, answer)
  {
  }

  lemma ReleasingIsShaped(task: Task, names: set<string>, client: Client)
    requires (client.Releasing? && client.n <= |Locks(task)|) || client.Done?
    ensures ClientShaped(task, names, client)
  {
  }

  /** A task whose tables are not all there, or are too many, is refused at once. */
  lemma RefusalKeepsInv(setup: Setup, w: World, c: nat)
    requires Inv(setup, w) && c < |w.clients| == |setup.tasks| && w.clients[c].Waiting? && !Known(setup.tasks[c], w.db.Keys)
    ensures Inv(setup, World(w.db, w.clients[c := Client.Done(Refused)], w.order + [c]))
  {
    hide *;
    InvMeans(setup, w);
    var task, serial := setup.tasks[c], Serially(setup, w.order);
    var client := Client.Done(Refused);
    RunEffects(task, serial);
    NotEnded(w.clients[c]);
    GrowOrder(setup, w.clients, w.order, c);
    ReleasingHasAnswered(client, Refused);
    ListedGrows(setup, w.clients, w.order, c, client);
    ClientIsShaped(setup, w, c);
    ReleasingIsShaped(task, w.db.Keys, client);
    ShapedAfter(setup, w, c, client, w.db, w.order + [c]);
    HoldsNothing(task, client);
    ReleaseKeepsExclusive(setup.tasks, w.clients, c, client);
    QuietAfter(setup.tasks, w.clients, w.db, serial, c, client);
    AllOnCourseMeans(setup.tasks, w.clients, w.db, serial);
    IdleIsOnCourse(task, client, w.db, serial);
    OnCourseAfter(setup.tasks, w.clients, w.db, serial, c, client);
    InvHolds(setup, World(w.db, w.clients[c := client], w.order + [c]));
  }

  lemma LockingIsShaped(task: Task, names: set<string>, n: nat)
    requires Known(task, names) && n <= |Locks(task)|
    ensures ClientShaped(task, names, Locking(n))
  {
  }

  lemma BeginLocking(setup: Setup, w: World, c: nat)
    requires Inv(setup, w) && c < |w.clients| == |setup.tasks| && w.clients[c].Waiting? && Known(setup.tasks[c], w.db.Keys)
    ensures Inv(setup, World(w.db, w.clients[c := Locking(0)], w.order))
  {
    hide *;
    InvMeans(setup, w);
    LockingIsShaped(setup.tasks[c], w.db.Keys, 0);
    HoldsNothing(setup.tasks[c], Locking(0));
    ReleaseKeepsExclusive(setup.tasks, w.clients, c, Locking(0));
    NotEnded(w.clients[c]);
    NotEnded(Locking(0));
    QuietMove(setup, w, c, Locking(0));
  }

  lemma AcquireKeepsInv(setup: Setup, w: World, c: nat, n: nat)
    requires Inv(setup, w) && c < |w.clients| == |setup.tasks| && w.clients[c] == Locking(n)
    requires n < |Locks(setup.tasks[c])| && Free(setup, w, c, Locks(setup.tasks[c])[n])
    ensures Inv(setup, World(w.db, w.clients[c := Locking(n + 1)], w.order))
  {
    hide *;
    InvMeans(setup, w);
    ClientIsShaped(setup, w, c);
    LockingMeansKnown(setup.tasks[c], w.db, w.clients[c]);
    LockingIsShaped(setup.tasks[c], w.db.Keys, n + 1);
    AcquireKeepsExclusive(setup, w, c, n);
    NotEnded(w.clients[c]);
    NotEnded(Locking(n + 1));
    QuietMove(setup, w, c, Locking(n + 1));
  }

  lemma ReleaseKeepsInv(setup: Setup, w: World, c: nat, client: Client)
    requires Inv(setup, w) && c < |w.clients| == |setup.tasks| && w.clients[c].Releasing?
    requires client == Client.Done(w.clients[c].answer)
          || (client == Releasing(w.clients[c].n + 1, w.clients[c].answer) && client.n <= |Locks(setup.tasks[c])|)
    ensures Inv(setup, World(w.db, w.clients[c := client], w.order))
  {
    hide *;
    InvMeans(setup, w);
    ReleasingIsShaped(setup.tasks[c], w.db.Keys, client);
    HeldShrinks(setup.tasks[c], w.clients[c], client);
    ReleaseKeepsExclusive(setup.tasks, w.clients, c, client);
    ReleasingHasAnswered(client, client.answer);
    ReleasingHasAnswered(w.clients[c], client.answer);
    AnsweredMeansEnded(client, client.answer);
    AnsweredMeansEnded(w.clients[c], client.answer);
    QuietMove(setup, w, c, client);
  }

  lemma AnsweredMeansEnded(client: Client, answer: Answer)
    requires HasAnswered(client, answer)
    ensures Ended(client)
  {
  }

  /** The cases of Act. */
  lemma ActCases(setup: Setup, w: World, c: nat)
    requires Shaped(setup, w) && c < |w.clients| && Act(setup, w, c).Some?
    ensures |w.clients| == |setup.tasks| && ClientShaped(setup.tasks[c], w.db.Keys, w.clients[c])
    ensures var task, client, w' := setup.tasks[c], w.clients[c], Act(setup, w, c).value;
      match client
      case Waiting =>
        if Known(task, w.db.Keys) then w' == World(w.db, w.clients[c := Locking(0)], w.order)
        else w' == World(w.db, w.clients[c := Client.Done(Refused)], w.order + [c])
      case Locking(n) =>
        if n == |Locks(task)| then w' == World(w.db, w.clients[c := Working(Begin(task))], w.order)
        else n < |Locks(task)| && Free(setup, w, c, Locks(task)[n]) && w' == World(w.db, w.clients[c := Locking(n + 1)], w.order)
      case Working(phase) =>
        && Fits(task, w.db)
        && InPhase(task, phase)
        && (if phase.Finished? then w' == World(w.db, w.clients[c := Releasing(0, phase.answer)], w.order + [c])
            else
              var m := Step(task, Moment(w.db, phase));
              w' == World(m.db, w.clients[c := Working(m.phase)], w.order))
      case Releasing(n, answer) =>
        && n <= |Locks(task)|
        && w' == World(w.db, w.clients[c := if n == |Locks(task)| then Client.Done(answer) else Releasing(n + 1, answer)], w.order)
      case Done(_) => false
  {
    hide Step, Locks, Known, Free, ValidDatabase, Begin;
  }

  /** Whatever step whichever client takes. */
  lemma ActKeepsInv(setup: Setup, w: World, c: nat)
    requires Inv(setup, w) && Shaped(setup, w) && c < |w.clients| && Act(setup, w, c).Some?
    ensures Inv(setup, Act(setup, w, c).value)
  {
    hide *;
    ActCases(setup, w, c);
    match w.clients[c]
    case Waiting =>
      if Known(setup.tasks[c], w.db.Keys) {
        BeginLocking(setup, w, c);
      } else {
        RefusalKeepsInv(setup, w, c);
      }
    case Locking(n) =>
      if n == |Locks(setup.tasks[c])| {
        EnterKeepsInv(setup, w, c);
      } else {
        AcquireKeepsInv(setup, w, c, n);
      }
    case Working(phase) =>
      if phase.Finished? {
        EndKeepsInv(setup, w, c);
      } else {
        StepKeepsInv(setup, w, c);
      }
    case Releasing(n, answer) =>
      ReleaseKeepsInv(setup, w, c, if n == |Locks(setup.tasks[c])| then Client.Done(answer) else Releasing(n + 1, answer));
    case Done(_) =>
  }

  // ---- Whole runs ----

  ghost predicate Next(setup: Setup, w: World, w': World) {
    Shaped(setup, w) && exists c: nat :: c < |w.clients| && Act(setup, w, c) == Some(w')
  }

  ghost predicate Interleaving(setup: Setup, run: seq<World>) {
    && ValidDatabase(setup.db)
    && run != []
    && run[0] == Start(setup)
    && forall i :: 0 < i < |run| ==> Next(setup, run[i - 1], run[i])
  }

  lemma {:induction false} RunsKeepInv(setup: Setup, run: seq<World>, n: nat)
    requires Interleaving(setup, run) && n < |run|
    ensures Inv(setup, run[n])
  {
    hide Inv, Act, ValidDatabase, Shaped, Start;
    if n == 0 {
      StartInv(setup);
    } else {
      RunsKeepInv(setup, run, n - 1);
      assert Next(setup, run[n - 1], run[n]);
      var c: nat :| c < |run[n - 1].clients| && Act(setup, run[n - 1], c) == Some(run[n]);
      ActKeepsInv(setup, run[n - 1], c);
    }
  }

  predicate AllDone(w: World) { forall c :: 0 <= c < |w.clients| ==> w.clients[c].Done? }

  /** Serialisability: when every client is done, the tables are those of the tasks
      run one after another in some order of all the clients, and each client's
      answer is the one that it gets in that order. In particular the items of a
      TransactGetItems are read in one state of that order. */
  lemma EveryInterleavingIsSerial(setup: Setup, run: seq<World>)
    requires Interleaving(setup, run) && AllDone(run[|run| - 1])
    ensures var end := run[|run| - 1];
      && Orders(setup, end.order)
      && |end.clients| == |setup.tasks|
      && (forall c :: 0 <= c < |setup.tasks| ==> c in end.order)
      && end.db == Serially(setup, end.order)
      && forall i :: 0 <= i < |end.order| ==> end.clients[end.order[i]] == Client.Done(SerialAnswer(setup, end.order, i))
  {
    var end := run[|run| - 1];
    hide *;
    RunsKeepInv(setup, run, |run| - 1);
    InvMeans(setup, end);
    NobodyLeft(setup, end);
  }

  lemma NobodyLeft(setup: Setup, end: World)
    requires ValidDatabase(setup.db) && Listed(setup, end.clients, end.order) && Answered(setup, end.clients, end.order) && AllDone(end)
    requires QuietTables(setup.tasks, end.clients, end.db, Serially(setup, end.order))
    ensures |end.clients| == |setup.tasks| && end.db == Serially(setup, end.order)
    ensures forall c :: 0 <= c < |setup.tasks| ==> c in end.order
    ensures forall i :: 0 <= i < |end.order| ==> end.clients[end.order[i]] == Client.Done(SerialAnswer(setup, end.order, i))
  {
    hide ValidDatabase, Serially, SerialAnswer, Locks;
    assert forall n :: !Busy(setup.tasks, end.clients, n);
    assert forall i :: 0 <= i < |end.order| ==> HasAnswered(end.clients[end.order[i]], SerialAnswer(setup, end.order, i));
  }

  /** At any moment the tables that no client is writing to, and the answers given so
      far, are those of the serial run of the clients that have ended. */
  lemma EveryMomentIsSerial(setup: Setup, run: seq<World>, n: nat)
    requires Interleaving(setup, run) && n < |run|
    ensures var w := run[n];
      && ValidDatabase(setup.db)
      && Listed(setup, w.clients, w.order)
      && QuietTables(setup.tasks, w.clients, w.db, Serially(setup, w.order))
      && Answered(setup, w.clients, w.order)
  {
    hide *;
    RunsKeepInv(setup, run, n);
    InvMeans(setup, run[n]);
  }

  lemma ActGrowsOrder(setup: Setup, w: World, c: nat)
    requires Shaped(setup, w) && c < |w.clients| && Act(setup, w, c).Some?
    ensures w.order <= Act(setup, w, c).value.order
  {
    hide *;
    ActCases(setup, w, c);
  }

  lemma {:induction false} OrderGrows(setup: Setup, run: seq<World>, i: nat, j: nat)
    requires Interleaving(setup, run) && i <= j < |run|
    ensures run[i].order <= run[j].order
  {
    hide Act, Shaped, ValidDatabase, Start;
    if i < j {
      OrderGrows(setup, run, i, j - 1);
      assert Next(setup, run[j - 1], run[j]);
      var c: nat :| c < |run[j - 1].clients| && Act(setup, run[j - 1], c) == Some(run[j]);
      ActGrowsOrder(setup, run[j - 1], c);
    }
  }

  /** The order respects real time: a client that was done before another one began
      comes before it. */
  lemma OrderIsRealTime(setup: Setup, run: seq<World>, i: nat, c: nat, d: nat, p: nat, q: nat)
    requires Interleaving(setup, run) && i < |run| && c < |setup.tasks| == |run[i].clients| && d < |setup.tasks|
    requires run[i].clients[c].Done? && run[i].clients[d].Waiting?
    requires var end := run[|run| - 1]; p < |end.order| && q < |end.order| && end.order[p] == c && end.order[q] == d
    ensures p < q
  {
    hide *;
    EveryMomentIsSerial(setup, run, i);
    EveryMomentIsSerial(setup, run, |run| - 1);
    OrderGrows(setup, run, i, |run| - 1);
    ListedMeans(setup, run[i].clients, run[i].order, c);
    ListedMeans(setup, run[i].clients, run[i].order, d);
    ListedIsDistinct(setup, run[|run| - 1].clients, run[|run| - 1].order);
    EarlierInPrefix(run[i].order, run[|run| - 1].order, p, q);
  }

  lemma ListedMeans(setup: Setup, clients: seq<Client>, order: seq<nat>, c: nat)
    requires Listed(setup, clients, order) && c < |clients|
    ensures c in order <==> (clients[c].Releasing? || clients[c].Done?)
  {
  }

  lemma ListedIsDistinct(setup: Setup, clients: seq<Client>, order: seq<nat>)
    requires Listed(setup, clients, order)
    ensures forall i, j :: 0 <= i < j < |order| ==> order[i] != order[j]
  {
  }

  lemma EarlierInPrefix(before: seq<nat>, after: seq<nat>, p: nat, q: nat)
    requires before <= after && p < |after| && q < |after| && after[p] in before && after[q] !in before
    requires forall i, j :: 0 <= i < j < |after| ==> after[i] != after[j]
    ensures p < q
  {
    var k :| 0 <= k < |before| && before[k] == after[p];
    assert after[k] == after[p];
    assert forall j :: 0 <= j < |before| ==> after[j] == before[j] && after[j] in before;
  }

  /** Because every table is locked once (dedup), a client never waits for itself. */
  lemma NobodyWaitsForItself(setup: Setup, w: World, c: nat)
    requires Shaped(setup, w) && c < |w.clients| && w.clients[c].Locking? && w.clients[c].n < |Locks(setup.tasks[c])|
    ensures Locks(setup.tasks[c])[w.clients[c].n] !in Held(setup.tasks[c], w.clients[c])
  {
    DedupKeepsTheElements(Names(setup.tasks[c]));
  }
}
