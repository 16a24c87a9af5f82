/**
 The tables of the bill tracker, with the constraints of the schema
 (internal/db/migrations/00001_initial_schema.sql), and the store calls that
 read and write them (internal/models). Each store call is one atomic step. A
 call that violates a constraint leaves the tables as they were.
 */
module Ledger {
  import opened Basics
  import opened Civil
  import opened Schedule

  datatype Definition = Definition(
    name: string,
    amountCents: int,
    plan: Plan,
    vendorURL: Option<string>,
    managed: bool)

  datatype Instance = Instance(definition: nat, due: Date, paid: bool)

  datatype Login = Login(connector: string, tenant: string, username: string, password: string)

  datatype Connection = Connection(
    definition: nat,
    login: Login,
    managed: bool,
    account: Option<string>,
    syncedAt: Option<int>,
    syncError: Option<string>)

  /** What a vendor answered to a successful fetch. */
  datatype Report = Report(definition: nat, amountCents: int, due: Date)

  /** The vendor reported that something is owed on that day. */
  predicate IsOwed(r: Report, id: nat, due: Date) {
    r.definition == id && r.due == due && r.amountCents > 0
  }

  ghost predicate Owed(reports: seq<Report>, id: nat, due: Date) {
    exists k :: 0 <= k < |reports| && IsOwed(reports[k], id, due)
  }

  /**
   The three tables and their id sequences. `reports` is not a table: it
   records the vendors' successful answers in order, to state properties.
   */
  datatype Db = Db(
    defs: map<nat, Definition>,
    instances: map<nat, Instance>,
    conns: map<nat, Connection>,
    nextDef: nat,
    nextInst: nat,
    nextConn: nat,
    reports: seq<Report>)

  const EMPTY: Db := Db(map[], map[], map[], 1, 1, 1, [])

  /** The INTEGER column type. */
  predicate FitsInteger(n: int) {
    -0x8000_0000 <= n < 0x8000_0000
  }

  predicate Storable(def: Definition) {
    WellShaped(def.plan) && FitsInteger(def.amountCents)
  }

  // ----- constraints -----

  ghost predicate DefsValid(db: Db) {
    forall d :: d in db.defs ==> d < db.nextDef && Storable(db.defs[d])
  }

  /** ON DELETE CASCADE references and the UNIQUE (definition, due date) pair. */
  ghost predicate InstancesValid(db: Db) {
    && (forall i :: i in db.instances ==> i < db.nextInst && db.instances[i].definition in db.defs)
    && (forall i, j :: i in db.instances && j in db.instances && SameRow(db.instances[i], db.instances[j]) ==> i == j)
  }

  predicate SameRow(a: Instance, b: Instance) {
    a.definition == b.definition && a.due == b.due
  }

  /** One connection per definition. */
  ghost predicate ConnsValid(db: Db) {
    && (forall c :: c in db.conns ==> c < db.nextConn && db.conns[c].definition in db.defs)
    && (forall c, e :: c in db.conns && e in db.conns && db.conns[c].definition == db.conns[e].definition ==> c == e)
  }

  ghost predicate ReportsValid(db: Db) {
    forall k :: 0 <= k < |db.reports| ==> db.reports[k].definition < db.nextDef
  }

  ghost predicate Valid(db: Db) {
    DefsValid(db) && InstancesValid(db) && ConnsValid(db) && ReportsValid(db)
  }

  // ----- reading -----

  predicate HasRow(db: Db, id: nat, due: Date) {
    exists i :: i in db.instances && SameRow(db.instances[i], Instance(id, due, false))
  }

  predicate HasConn(db: Db, id: nat) {
    exists c :: c in db.conns && db.conns[c].definition == id
  }

  function Named(db: Db, name: string): set<nat> {
    set d | d in db.defs && db.defs[d].name == name
  }

  /** The rows `ListUpcomingUnpaid` selects. */
  function UpcomingUnpaid(db: Db, to: Date): set<nat> {
    set i | i in db.instances && !db.instances[i].paid && Ordinal(db.instances[i].due) <= Ordinal(to)
  }

  // ----- writing -----

  datatype Call =
    | Create(def: Definition)
    | Update(id: nat, def: Definition)
    | UpdateBootstrap(id: nat, def: Definition)
    | UpdateAmount(id: nat, amountCents: int)
    | Delete(id: nat)
    | Ensure(id: nat, due: Date)
    | MarkPaid(instance: nat)
    | Upsert(id: nat, login: Login)
    | MarkSynced(conn: nat, now: int, account: string, error: Option<string>)
    | Answer(report: Report)

  function Created(db: Db, def: Definition): Db {
    var burnt := db.(nextDef := db.nextDef + 1);
    if Storable(def) then burnt.(defs := db.defs[db.nextDef := def]) else burnt
  }

  /** The settings-page edit: everything but the managed flag. */
  function Updated(db: Db, id: nat, def: Definition): Db {
    if id in db.defs && Storable(def)
    then db.(defs := db.defs[id := def.(managed := db.defs[id].managed)]) else db
  }

  /** The bills.json edit: everything but name and managed flag. */
  function UpdatedBootstrap(db: Db, id: nat, def: Definition): Db {
    if id in db.defs && Storable(def)
    then db.(defs := db.defs[id := def.(name := db.defs[id].name, managed := db.defs[id].managed)]) else db
  }

  function Repriced(db: Db, id: nat, amountCents: int): Db {
    if id in db.defs && FitsInteger(amountCents)
    then db.(defs := db.defs[id := db.defs[id].(amountCents := amountCents)]) else db
  }

  function Deleted(db: Db, id: nat): Db {
    db.(defs := db.defs - {id},
        instances := map i | i in db.instances && db.instances[i].definition != id :: db.instances[i],
        conns := map c | c in db.conns && db.conns[c].definition != id :: db.conns[c])
  }

  /** INSERT ... ON CONFLICT DO NOTHING; the sequence moves on at a conflict too. */
  function Ensured(db: Db, id: nat, due: Date): Db {
    var burnt := db.(nextInst := db.nextInst + 1);
    if id !in db.defs then db
    else if HasRow(db, id, due) then burnt
    else burnt.(instances := db.instances[db.nextInst := Instance(id, due, false)])
  }

  function Paid(db: Db, instance: nat): Db {
    if instance in db.instances
    then db.(instances := db.instances[instance := db.instances[instance].(paid := true)]) else db
  }

  /** Overwrites the login of an existing connection and keeps its sync history. */
  function Upserted(db: Db, id: nat, login: Login): Db {
    var burnt := db.(nextConn := db.nextConn + 1);
    if id !in db.defs then burnt
    else if HasConn(db, id) then
      burnt.(conns := map c | c in db.conns ::
        if db.conns[c].definition == id then db.conns[c].(login := login, managed := true) else db.conns[c])
    else burnt.(conns := db.conns[db.nextConn := Connection(id, login, true, None, None, None)])
  }

  /** Stamps the time on failure too, and keeps the last account number. */
  function Synced(db: Db, conn: nat, now: int, account: string, error: Option<string>): Db {
    if conn in db.conns then
      var c := db.conns[conn];
      db.(conns := db.conns[conn := c.(syncedAt := Some(now), syncError := error,
        account := if account == "" then c.account else Some(account))])
    else db
  }

  function Noted(db: Db, r: Report): Db {
    if r.definition < db.nextDef then db.(reports := db.reports + [r]) else db
  }

  function Apply(db: Db, call: Call): Db {
    match call
    case Create(def) => Created(db, def)
    case Update(id, def) => Updated(db, id, def)
    case UpdateBootstrap(id, def) => UpdatedBootstrap(db, id, def)
    case UpdateAmount(id, amountCents) => Repriced(db, id, amountCents)
    case Delete(id) => Deleted(db, id)
    case Ensure(id, due) => Ensured(db, id, due)
    case MarkPaid(instance) => Paid(db, instance)
    case Upsert(id, login) => Upserted(db, id, login)
    case MarkSynced(conn, now, account, error) => Synced(db, conn, now, account, error)
    case Answer(report) => Noted(db, report)
  }

  // ----- what every call keeps -----

  lemma EnsuredHasRow(db: Db, id: nat, due: Date)
    requires id in db.defs
    ensures HasRow(Ensured(db, id, due), id, due)
  {
    var db' := Ensured(db, id, due);
    if !HasRow(db, id, due) {
      assert db.nextInst in db'.instances && SameRow(db'.instances[db.nextInst], Instance(id, due, false));
    }
  }

  lemma EnsureKeepsValid(db: Db, id: nat, due: Date)
    requires Valid(db)
    ensures Valid(Ensured(db, id, due))
  {
    var db' := Ensured(db, id, due);
    if id in db.defs && !HasRow(db, id, due) {
      forall i, j | i in db'.instances && j in db'.instances && SameRow(db'.instances[i], db'.instances[j])
        ensures i == j
      {
        assert i != db.nextInst ==> !SameRow(db.instances[i], Instance(id, due, false));
        assert j != db.nextInst ==> !SameRow(db.instances[j], Instance(id, due, false));
      }
    }
  }

  lemma UpsertKeepsValid(db: Db, id: nat, login: Login)
    requires Valid(db)
    ensures Valid(Upserted(db, id, login))
  {
    var db' := Upserted(db, id, login);
    if id in db.defs && !HasConn(db, id) {
      forall c, e | c in db'.conns && e in db'.conns && db'.conns[c].definition == db'.conns[e].definition
        ensures c == e
      {
        assert c != db.nextConn ==> db.conns[c].definition != id;
        assert e != db.nextConn ==> db.conns[e].definition != id;
      }
    }
  }

  /** A call that only writes definitions, and removes none. */
  lemma DefsWriteKeepsValid(db: Db, db': Db)
    requires Valid(db) && DefsValid(db')
    requires db'.instances == db.instances && db'.conns == db.conns && db'.reports == db.reports
    requires db'.nextInst == db.nextInst && db'.nextConn == db.nextConn && db.nextDef <= db'.nextDef
    requires forall d :: d in db.defs ==> d in db'.defs
    ensures Valid(db')
  {}

  lemma CreateKeepsValid(db: Db, def: Definition)
    requires Valid(db)
    ensures Valid(Created(db, def))
  {
    DefsWriteKeepsValid(db, Created(db, def));
  }

  lemma UpdateKeepsValid(db: Db, id: nat, def: Definition)
    requires Valid(db)
    ensures Valid(Updated(db, id, def)) && Valid(UpdatedBootstrap(db, id, def))
  {
    DefsWriteKeepsValid(db, Updated(db, id, def));
    DefsWriteKeepsValid(db, UpdatedBootstrap(db, id, def));
  }

  lemma RepriceKeepsValid(db: Db, id: nat, amountCents: int)
    requires Valid(db)
    ensures Valid(Repriced(db, id, amountCents))
  {
    DefsWriteKeepsValid(db, Repriced(db, id, amountCents));
  }

  lemma DeleteKeepsValid(db: Db, id: nat)
    requires Valid(db)
    ensures Valid(Deleted(db, id))
  {
    var db' := Deleted(db, id);
    assert forall i :: i in db'.instances ==> i in db.instances && db'.instances[i] == db.instances[i];
    assert forall c :: c in db'.conns ==> c in db.conns && db'.conns[c] == db.conns[c];
  }

  lemma PaidKeepsValid(db: Db, i: nat)
    requires Valid(db)
    ensures Valid(Paid(db, i))
  {
    var db' := Paid(db, i);
    assert forall i :: i in db'.instances ==> i in db.instances && SameRow(db'.instances[i], db.instances[i]);
  }

  lemma SyncedKeepsValid(db: Db, conn: nat, now: int, account: string, error: Option<string>)
    requires Valid(db)
    ensures Valid(Synced(db, conn, now, account, error))
  {
    var db' := Synced(db, conn, now, account, error);
    assert forall c :: c in db'.conns ==> c in db.conns && db'.conns[c].definition == db.conns[c].definition;
  }

  /**
   Every store call, with any arguments and in any state, keeps the schema's
   constraints: shape, references, unique pairs, fresh ids.
   */
  lemma CallKeepsValid(db: Db, call: Call)
    requires Valid(db)
    ensures Valid(Apply(db, call))
  {
    match call
    case Ensure(id, due) => EnsureKeepsValid(db, id, due);
    case Upsert(id, login) => UpsertKeepsValid(db, id, login);
    case MarkPaid(instance) => PaidKeepsValid(db, instance);
    case Delete(id) => DeleteKeepsValid(db, id);
    case MarkSynced(conn, now, account, error) => SyncedKeepsValid(db, conn, now, account, error);
    case Create(def) => CreateKeepsValid(db, def);
    case Update(id, def) => UpdateKeepsValid(db, id, def);
    case UpdateBootstrap(id, def) => UpdateKeepsValid(db, id, def);
    case UpdateAmount(id, amountCents) => RepriceKeepsValid(db, id, amountCents);
    case Answer(report) =>
  }

  // ----- whole runs -----

  function Run(db: Db, calls: seq<Call>): Db
    decreases |calls|
  {
    if calls == [] then db else Run(Apply(db, calls[0]), calls[1..])
  }

  lemma {:induction false} RunKeepsValid(db: Db, calls: seq<Call>)
    requires Valid(db)
    ensures Valid(Run(db, calls))
    decreases |calls|
  {
    if calls == [] {
    } else {
      CallKeepsValid(db, calls[0]);
      RunKeepsValid(Apply(db, calls[0]), calls[1..]);
    }
  }

  /** A row of the instance table is removed only by deleting its definition, and changed only by paying it. */
  lemma CallOnRow(db: Db, call: Call, i: nat)
    requires Valid(db) && i in db.instances
    ensures var r, db' := db.instances[i], Apply(db, call);
            if call == Delete(r.definition) then i !in db'.instances
            else i in db'.instances && db'.instances[i] == r.(paid := r.paid || call == MarkPaid(i))
  {}

  /**
   Paid is final. Over any sequence of store calls a row is either still there,
   with its definition and due date, paid if it was paid before or has been
   marked since, and not otherwise; or its definition was deleted. No second
   row for the same pair exists.
   */
  lemma {:induction false} PaidIsFinal(db: Db, calls: seq<Call>, i: nat)
    requires Valid(db) && i in db.instances
    ensures var r, end := db.instances[i], Run(db, calls);
            if Delete(r.definition) in calls then i !in end.instances
            else
              && i in end.instances
              && end.instances[i] == r.(paid := r.paid || MarkPaid(i) in calls)
              && forall j :: j in end.instances && SameRow(end.instances[j], r) ==> j == i
    decreases |calls|
  {
    var r := db.instances[i];
    if calls == [] {
    } else {
      var next := Apply(db, calls[0]);
      CallKeepsValid(db, calls[0]);
      CallOnRow(db, calls[0], i);
      assert forall c :: c in calls <==> c == calls[0] || c in calls[1..];
      if calls[0] == Delete(r.definition) {
        GoneStaysGone(next, calls[1..], i);
      } else {
        PaidIsFinal(next, calls[1..], i);
      }
    }
  }

  lemma CallReusesNoId(db: Db, call: Call, i: nat)
    requires i !in db.instances && i < db.nextInst
    ensures i !in Apply(db, call).instances && i < Apply(db, call).nextInst
  {}

  /** Ids are not reused: a row that was removed does not come back. */
  lemma {:induction false} GoneStaysGone(db: Db, calls: seq<Call>, i: nat)
    requires i !in db.instances && i < db.nextInst
    ensures i !in Run(db, calls).instances
    decreases |calls|
  {
    if calls == [] {
    } else {
      CallReusesNoId(db, calls[0], i);
      GoneStaysGone(Apply(db, calls[0]), calls[1..], i);
    }
  }

  /**
   Which rows are listed: the unpaid ones due on the upper date or before it, by
   the calendar. So a row is listed for its own due date and not for the day
   before, and a later upper date lists no less.
   */
  lemma ListedIffDueBy(db: Db, to: Date, i: nat)
    ensures i in UpcomingUnpaid(db, to) <==>
              i in db.instances && !db.instances[i].paid && !LexBefore(to, db.instances[i].due)
  {
    if i in db.instances {
      OrderIsLexicographic(to, db.instances[i].due);
    }
  }

  lemma ListedFromItsDay(db: Db, i: nat, earlier: Date, later: Date)
    requires i in db.instances && !db.instances[i].paid && DayNumber(earlier) + 1 == DayNumber(db.instances[i].due)
    ensures i in UpcomingUnpaid(db, db.instances[i].due) && i !in UpcomingUnpaid(db, earlier)
    ensures DayNumber(earlier) <= DayNumber(later) ==> UpcomingUnpaid(db, earlier) <= UpcomingUnpaid(db, later)
  {
    CalendarIsGregorian(earlier);
    CalendarIsGregorian(later);
    CalendarIsGregorian(db.instances[i].due);
  }

  /**
   An unpaid bill stays on the list, overdue or not, until it is marked paid or
   its definition is deleted; and one of the two takes it off.
   */
  lemma UnpaidUntilPaidOrDeleted(db: Db, calls: seq<Call>, i: nat, to: Date)
    requires Valid(db) && i in UpcomingUnpaid(db, to)
    ensures i in UpcomingUnpaid(Run(db, calls), to) <==>
              MarkPaid(i) !in calls && Delete(db.instances[i].definition) !in calls
  {
    PaidIsFinal(db, calls, i);
  }

  // ----- histories of definitions and connections -----

  /** The name a definition was last given by a settings edit. */
  function LastName(calls: seq<Call>, id: nat, was: string): string
    decreases |calls|
  {
    if calls == [] then was
    else
      var c := calls[0];
      LastName(calls[1..], id, if c.Update? && c.id == id && Storable(c.def) then c.def.name else was)
  }

  /**
   Who manages a definition never changes, and only a settings edit renames it:
   neither the file, nor a vendor, nor any other call.
   */
  lemma ManagedForLife(db: Db, calls: seq<Call>, id: nat)
    requires Valid(db) && id in db.defs && id in Run(db, calls).defs
    ensures Run(db, calls).defs[id].managed == db.defs[id].managed
    ensures Run(db, calls).defs[id].name == LastName(calls, id, db.defs[id].name)
  {
    NameHistory(db, calls, id);
  }

  lemma {:induction false} NameHistory(db: Db, calls: seq<Call>, id: nat)
    requires id in db.defs && id < db.nextDef && id in Run(db, calls).defs
    ensures Run(db, calls).defs[id].managed == db.defs[id].managed
    ensures Run(db, calls).defs[id].name == LastName(calls, id, db.defs[id].name)
    decreases |calls|
  {
    if calls == [] {
    } else {
      var next := Apply(db, calls[0]);
      CallOnDefinition(db, calls[0], id);
      if id in next.defs {
        NameHistory(next, calls[1..], id);
      } else {
        RemovedForGood(next, calls[1..], id);
      }
    }
  }

  lemma CallOnDefinition(db: Db, call: Call, id: nat)
    requires id in db.defs && id < db.nextDef
    ensures id < Apply(db, call).nextDef
    ensures id in Apply(db, call).defs ==>
              var d, d' := db.defs[id], Apply(db, call).defs[id];
              && d'.managed == d.managed
              && d'.name == if call.Update? && call.id == id && Storable(call.def) then call.def.name else d.name
  {}

  lemma {:induction false} RemovedForGood(db: Db, calls: seq<Call>, id: nat)
    requires id !in db.defs && id < db.nextDef
    ensures id !in Run(db, calls).defs
    decreases |calls|
  {
    if calls == [] {
    } else {
      assert id !in Apply(db, calls[0]).defs && id < Apply(db, calls[0]).nextDef;
      RemovedForGood(Apply(db, calls[0]), calls[1..], id);
    }
  }

  /** One call as a connection shows it: a sync with its error and account number, or a saved login. */
  function ShownAfter(call: Call, conn: nat, c: Connection): Connection {
    match call
    case MarkSynced(id, now, account, error) =>
      if id != conn then c
      else c.(syncedAt := Some(now), syncError := error, account := if account == "" then c.account else Some(account))
    case Upsert(id, login) => if id != c.definition then c else c.(login := login, managed := true)
    case _ => c
  }

  /** The last sync and its error, the last account number reported, the last login saved. */
  function Shown(calls: seq<Call>, conn: nat, c: Connection): Connection
    decreases |calls|
  {
    if calls == [] then c else Shown(calls[1..], conn, ShownAfter(calls[0], conn, c))
  }

  /**
   A connection that outlives a run shows exactly that: a saved login does not
   reset its sync history, a failed sync does not erase its account number, and
   it stays with its definition.
   */
  lemma ConnectionHistory(db: Db, calls: seq<Call>, conn: nat)
    requires Valid(db) && conn in db.conns && conn in Run(db, calls).conns
    ensures Run(db, calls).conns[conn] == Shown(calls, conn, db.conns[conn])
  {
    RowHistory(db, calls, conn);
  }

  /** What the constraints say of one connection. */
  predicate IsAttached(db: Db, conn: nat) {
    conn in db.conns && conn < db.nextConn && db.conns[conn].definition in db.defs
  }

  lemma {:induction false} RowHistory(db: Db, calls: seq<Call>, conn: nat)
    requires IsAttached(db, conn) && conn in Run(db, calls).conns
    ensures Run(db, calls).conns[conn] == Shown(calls, conn, db.conns[conn])
    decreases |calls|
  {
    if calls == [] {
    } else {
      var next := Apply(db, calls[0]);
      CallOnConnection(db, calls[0], conn);
      if conn in next.conns {
        RowHistory(next, calls[1..], conn);
      } else {
        DetachedForGood(next, calls[1..], conn);
      }
    }
  }

  /** A call detaches a connection exactly if it deletes its bill, and otherwise leaves it attached. */
  lemma CallOnConnection(db: Db, call: Call, conn: nat)
    requires IsAttached(db, conn)
    ensures conn < Apply(db, call).nextConn
    ensures if call == Delete(db.conns[conn].definition) then conn !in Apply(db, call).conns
            else IsAttached(Apply(db, call), conn)
                 && Apply(db, call).conns[conn] == ShownAfter(call, conn, db.conns[conn])
  {
    if call.Upsert? && call.id == db.conns[conn].definition {
      assert HasConn(db, call.id);
    }
  }

  lemma {:induction false} DetachedForGood(db: Db, calls: seq<Call>, conn: nat)
    requires conn !in db.conns && conn < db.nextConn
    ensures conn !in Run(db, calls).conns
    decreases |calls|
  {
    if calls == [] {
    } else {
      CallReattachesNone(db, calls[0], conn);
      DetachedForGood(Apply(db, calls[0]), calls[1..], conn);
    }
  }

  /**
   Only the deletion of its bill removes a connection: no edit of the bill, from
   the file or the settings page, does.
   */
  lemma ConnectionOutlives(db: Db, calls: seq<Call>, conn: nat)
    requires Valid(db) && conn in db.conns
    ensures conn in Run(db, calls).conns <==> Delete(db.conns[conn].definition) !in calls
    ensures conn in Run(db, calls).conns ==> Run(db, calls).conns[conn].definition == db.conns[conn].definition
  {
    AttachedUntilDeleted(db, calls, conn);
  }

  lemma {:induction false} AttachedUntilDeleted(db: Db, calls: seq<Call>, conn: nat)
    requires IsAttached(db, conn)
    ensures conn in Run(db, calls).conns <==> Delete(db.conns[conn].definition) !in calls
    ensures conn in Run(db, calls).conns ==> Run(db, calls).conns[conn].definition == db.conns[conn].definition
    decreases |calls|
  {
    if calls == [] {
    } else {
      var next := Apply(db, calls[0]);
      CallOnConnection(db, calls[0], conn);
      assert forall c :: c in calls <==> c == calls[0] || c in calls[1..];
      if conn in next.conns {
        AttachedUntilDeleted(next, calls[1..], conn);
      } else {
        DetachedForGood(next, calls[1..], conn);
      }
    }
  }

  lemma CallReattachesNone(db: Db, call: Call, conn: nat)
    requires conn !in db.conns && conn < db.nextConn
    ensures conn !in Apply(db, call).conns && conn < Apply(db, call).nextConn
  {}
}
