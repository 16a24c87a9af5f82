/**
 The settings actions, the tick and a refresh pass as functions of the tables,
 for handlers that nothing else interleaves with.
 */
module Handlers {
  import opened Basics
  import opened Civil
  import opened Schedule
  import opened Ledger
  import opened World
  import opened Entries
  import opened Refresh

  /** The day, the lookahead, and the number of instance inserts that go through before one fails, if one does. */
  datatype Clock = Clock(today: int, lookahead: int, rowsFail: Option<nat>)

  /** GenerateInstancesForDefinition. */
  function GeneratedFor(db: Db, id: nat, plan: Plan, clock: Clock): Db
    requires InRange(plan)
  {
    Generated(db, id, Written(Window(plan, clock.today, clock.lookahead), clock.rowsFail))
  }

  function Written(dates: seq<Date>, rowsFail: Option<nat>): seq<Date> {
    match rowsFail
    case None => dates
    case Some(n) => if n < |dates| then dates[..n] else dates
  }

  function BillAdded(db: Db, form: Form, clock: Clock): Db {
    match FromForm(form)
    case None => db
    case Some(def) =>
      FormMeetsCheck(form);
      if Storable(def) then GeneratedFor(Created(db, def), db.nextDef, def.plan, clock) else Created(db, def)
  }

  function BillUpdated(db: Db, id: nat, form: Form, clock: Clock): Db {
    if id !in db.defs || db.defs[id].managed then db
    else match FromForm(form)
      case None => db
      case Some(def) =>
        FormMeetsCheck(form);
        if Storable(def) then GeneratedFor(Updated(db, id, def), id, def.plan, clock) else db
  }

  function BillDeleted(db: Db, id: nat): Db {
    if id !in db.defs || db.defs[id].managed then db else Deleted(db, id)
  }

  /** One tick over the definitions it listed, each with its own reading of the clock and its own failure. */
  function Ticked(db: Db, todo: seq<Held>, clocks: nat -> Clock): Db
    requires forall k :: 0 <= k < |todo| ==> InRange(todo[k].def.plan)
    decreases |todo|
  {
    if todo == [] then db
    else
      var n := |todo| - 1;
      GeneratedFor(Ticked(db, todo[..n], clocks), todo[n].id, todo[n].def.plan, clocks(n))
  }

  /** A listed connection: its id and the row as it was read. */
  datatype Row = Row(conn: nat, row: Connection)

  /** What the vendor answers, when, and which store calls go through, connection by connection. */
  datatype Answers = Answers(fetch: nat -> Fetched, now: nat -> int, health: nat -> Health, interval: int)

  /** One pass over the connections it listed. */
  function Passed(db: Db, todo: seq<Row>, answers: Answers): Db
    decreases |todo|
  {
    if todo == [] then db
    else
      var n := |todo| - 1;
      RefreshedIfStale(Passed(db, todo[..n], answers), todo[n].conn, todo[n].row,
                       answers.fetch(n), answers.now(n), answers.interval, answers.health(n))
  }
}
