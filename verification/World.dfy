/**
 The running service: the ledger shared by the scheduler's tick, the settings
 handlers, the bills.json reconciliation and the vendor refresh. Each of them
 reads first and writes later, one store call at a time, so what a worker holds
 may be stale by the time it writes. Any interleaving, any store failure and a
 crash at any point are runs of this machine.
 */
module World {
  import opened Basics
  import opened Civil
  import opened Schedule
  import opened Ledger

  /** The due dates `GenerateInstancesForDefinition` asks for on a day. */
  function Window(p: Plan, day: int, lookahead: int): seq<Date>
    requires InRange(p)
  {
    var today := OfOrdinal(day);
    DueDates(p, today, AddDate(today, 0, 0, lookahead))
  }

  lemma WindowIsExact(p: Plan, day: int, lookahead: int, d: Date)
    requires InRange(p)
    ensures d in Window(p, day, lookahead) <==> IsDue(p, d) && day <= Ordinal(d) <= day + lookahead
  {
    var today := OfOrdinal(day);
    OrdinalRoundTrip(day, d);
    AddDaysIsExact(today, lookahead);
    DueDatesAreExact(p, today, AddDate(today, 0, 0, lookahead));
  }

  // ----- workers -----

  /** A definition as it was when it was read, or as a handler just wrote it. */
  datatype Held = Held(id: nat, def: Definition)

  /** A connection row as it was when it was listed. */
  datatype HeldConn = HeldConn(conn: nat, definition: nat)

  datatype Worker =
    | Listed(todo: seq<Held>)
    | Generating(id: nat, plan: Plan, day: int, dates: seq<Date>, todo: seq<Held>)
    | ListedConns(conns: seq<HeldConn>)
    | Pricing(conn: nat, report: Report, account: string, conns: seq<HeldConn>)
    | Placing(conn: nat, report: Report, account: string, conns: seq<HeldConn>)
    | Stamping(conn: nat, account: string, error: Option<string>, conns: seq<HeldConn>)

  /** `hist`, `born` and `done` only record what happened. */
  datatype World = World(
    db: Db,
    today: int,
    workers: map<nat, Worker>,
    hist: map<nat, set<Plan>>,
    born: map<nat, int>,
    done: set<(nat, Plan, int)>)

  function Initial(today: int): World {
    World(EMPTY, today, map[], map[], map[], {})
  }

  datatype Fetched = Failed(reason: string) | Snapshot(amountCents: int, due: Date, account: string)

  datatype Step =
    | Dawn
    | Crash
    | Add(w: nat, def: Definition)
    | Edit(w: nat, id: nat, def: Definition)
    | Reload(w: nat, id: nat, def: Definition)
    | Remove(id: nat)
    | Pay(instance: nat)
    | Attach(id: nat, login: Login)
    | List(w: nat, order: seq<nat>)
    | Begin(w: nat)
    | EnsureNext(w: nat, ok: bool)
    | Finish(w: nat)
    | ListConns(w: nat, order: seq<nat>)
    | Skip(w: nat)
    | Fetch(w: nat, answer: Fetched)
    | Price(w: nat, ok: bool)
    | Place(w: nat, ok: bool)
    | Stamp(w: nat, now: int, ok: bool)

  // ----- steps; a step whose worker is not at that point does nothing -----

  function Put(s: World, w: nat, k: Worker): World {
    s.(workers := s.workers[w := k])
  }

  /** Settings add and bills.json create: the row, then generation for it. */
  function AddStep(s: World, w: nat, def: Definition): World {
    var db := Created(s.db, def);
    if Storable(def) then
      World(db, s.today, s.workers[w := Listed([Held(s.db.nextDef, def)])],
            s.hist[s.db.nextDef := {def.plan}], s.born[s.db.nextDef := s.today], s.done)
    else s.(db := db)
  }

  /**
   Both edits. The handler has read the row before, so the id is one that was
   handed out; if the row is gone meanwhile the UPDATE changes nothing, reports
   no error, and generation follows all the same.
   */
  function EditStep(s: World, w: nat, id: nat, def: Definition, db: Db): World {
    if !Storable(def) || id >= s.db.nextDef then s
    else
      var hist := if id in s.db.defs && id in s.hist then s.hist[id := s.hist[id] + {def.plan}] else s.hist;
      World(db, s.today, s.workers[w := Listed([Held(id, def)])], hist, s.born, s.done)
  }

  function ListStep(s: World, w: nat, order: seq<nat>): World {
    if forall k :: 0 <= k < |order| ==> order[k] in s.db.defs
    then Put(s, w, Listed(seq(|order|, k requires 0 <= k < |order| && order[k] in s.db.defs =>
           Held(order[k], s.db.defs[order[k]]))))
    else s
  }

  function BeginStep(s: World, w: nat, lookahead: int): World {
    if w in s.workers && s.workers[w].Listed? && s.workers[w].todo != [] && InRange(s.workers[w].todo[0].def.plan) then
      var todo := s.workers[w].todo;
      var plan := todo[0].def.plan;
      Put(s, w, Generating(todo[0].id, plan, s.today, Window(plan, s.today, lookahead), todo[1..]))
    else s
  }

  /** A store failure, or a definition deleted meanwhile, ends this definition's generation. */
  function EnsureStep(s: World, w: nat, ok: bool): World {
    if w in s.workers && s.workers[w].Generating? && s.workers[w].dates != [] then
      var k := s.workers[w];
      if ok && k.id in s.db.defs
      then Put(s.(db := Ensured(s.db, k.id, k.dates[0])), w, k.(dates := k.dates[1..]))
      else Put(s, w, Listed(k.todo))
    else s
  }

  function FinishStep(s: World, w: nat): World {
    if w in s.workers && s.workers[w].Generating? && s.workers[w].dates == [] then
      var k := s.workers[w];
      Put(s.(done := s.done + {(k.id, k.plan, k.day)}), w, Listed(k.todo))
    else s
  }

  function ListConnsStep(s: World, w: nat, order: seq<nat>): World {
    if forall k :: 0 <= k < |order| ==> order[k] in s.db.conns
    then Put(s, w, ListedConns(seq(|order|, k requires 0 <= k < |order| && order[k] in s.db.conns =>
                                              HeldConn(order[k], s.db.conns[order[k]].definition))))
    else s
  }

  function FetchStep(s: World, w: nat, answer: Fetched): World {
    if w in s.workers && s.workers[w].ListedConns? && s.workers[w].conns != [] then
      var conns := s.workers[w].conns;
      var c := conns[0];
      match answer
      case Failed(reason) => Put(s, w, Stamping(c.conn, "", Some(reason), conns[1..]))
      case Snapshot(amountCents, due, account) =>
        var r := Report(c.definition, amountCents, due);
        Put(s.(db := Noted(s.db, r)), w, Pricing(c.conn, r, account, conns[1..]))
    else s
  }

  function PriceStep(s: World, w: nat, ok: bool): World {
    if w in s.workers && s.workers[w].Pricing? then
      var k := s.workers[w];
      var db := if ok then Repriced(s.db, k.report.definition, k.report.amountCents) else s.db;
      var next := if k.report.amountCents <= 0 then Stamping(k.conn, k.account, None, k.conns)
                  else Placing(k.conn, k.report, k.account, k.conns);
      Put(s.(db := db), w, next)
    else s
  }

  function PlaceStep(s: World, w: nat, ok: bool): World {
    if w in s.workers && s.workers[w].Placing? then
      var k := s.workers[w];
      var db := if ok then Ensured(s.db, k.report.definition, k.report.due) else s.db;
      Put(s.(db := db), w, Stamping(k.conn, k.account, None, k.conns))
    else s
  }

  function StampStep(s: World, w: nat, now: int, ok: bool): World {
    if w in s.workers && s.workers[w].Stamping? then
      var k := s.workers[w];
      var db := if ok then Synced(s.db, k.conn, now, k.account, k.error) else s.db;
      Put(s.(db := db), w, ListedConns(k.conns))
    else s
  }

  function SkipStep(s: World, w: nat): World {
    if w in s.workers && s.workers[w].ListedConns? && s.workers[w].conns != []
    then Put(s, w, ListedConns(s.workers[w].conns[1..])) else s
  }

  function After(s: World, step: Step, lookahead: int): World {
    match step
    case Dawn => s.(today := s.today + 1)
    case Crash => s.(workers := map[])
    case Add(w, def) => AddStep(s, w, def)
    case Edit(w, id, def) => EditStep(s, w, id, def, Updated(s.db, id, def))
    case Reload(w, id, def) => EditStep(s, w, id, def, UpdatedBootstrap(s.db, id, def))
    case Remove(id) => s.(db := Deleted(s.db, id))
    case Pay(instance) => s.(db := Paid(s.db, instance))
    case Attach(id, login) => s.(db := Upserted(s.db, id, login))
    case List(w, order) => ListStep(s, w, order)
    case Begin(w) => BeginStep(s, w, lookahead)
    case EnsureNext(w, ok) => EnsureStep(s, w, ok)
    case Finish(w) => FinishStep(s, w)
    case ListConns(w, order) => ListConnsStep(s, w, order)
    case Skip(w) => SkipStep(s, w)
    case Fetch(w, answer) => FetchStep(s, w, answer)
    case Price(w, ok) => PriceStep(s, w, ok)
    case Place(w, ok) => PlaceStep(s, w, ok)
    case Stamp(w, now, ok) => StampStep(s, w, now, ok)
  }

  function Reach(s: World, steps: seq<Step>, lookahead: int): World
    decreases |steps|
  {
    if steps == [] then s else After(Reach(s, steps[..|steps| - 1], lookahead), steps[|steps| - 1], lookahead)
  }
}
