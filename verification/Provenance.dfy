/**
 What holds in every reachable state of the service: where each instance came
 from, and that no due date is missed.
 */
module Provenance {
  import opened Basics
  import opened Civil
  import opened Schedule
  import opened Ledger
  import opened World

  // ----- the invariant -----

  /** What is recorded about the definitions that exist. */
  ghost predicate HistoryOk(s: World) {
    forall id :: id in s.db.defs ==>
      && id in s.hist && id in s.born
      && s.born[id] <= s.today
      && s.db.defs[id].plan in s.hist[id]
  }

  /** A version some worker holds: its definition is gone, or it had this plan at some time. */
  ghost predicate VersionOk(s: World, id: nat, plan: Plan) {
    && WellShaped(plan)
    && id < s.db.nextDef
    && (id in s.db.defs ==> id in s.hist && plan in s.hist[id])
  }

  ghost predicate TodoOk(s: World, todo: seq<Held>) {
    forall k :: 0 <= k < |todo| ==> VersionOk(s, todo[k].id, todo[k].def.plan)
  }

  /** The rows of a window that are not still to come exist. */
  ghost predicate Covered(s: World, id: nat, plan: Plan, day: int, lookahead: int, dates: seq<Date>)
    requires InRange(plan)
  {
    id in s.db.defs ==> forall d: Date :: d in Window(plan, day, lookahead) ==> d in dates || HasRow(s.db, id, d)
  }

  ghost predicate SpanOk(s: World, id: nat, plan: Plan, day: int) {
    && VersionOk(s, id, plan)
    && day <= s.today
    && (id in s.db.defs ==> id in s.born && s.born[id] <= day)
  }

  ghost predicate GeneratingOk(s: World, k: Worker, lookahead: int)
    requires k.Generating?
  {
    && SpanOk(s, k.id, k.plan, k.day)
    && (forall d: Date :: d in k.dates ==> d in Window(k.plan, k.day, lookahead))
    && Covered(s, k.id, k.plan, k.day, lookahead, k.dates)
    && TodoOk(s, k.todo)
  }

  ghost predicate ConnsOk(s: World, conns: seq<HeldConn>) {
    forall k :: 0 <= k < |conns| ==> conns[k].definition < s.db.nextDef
  }

  ghost predicate WorkerOk(s: World, k: Worker, lookahead: int) {
    match k
    case Listed(todo) => TodoOk(s, todo)
    case Generating(_, _, _, _, _) => GeneratingOk(s, k, lookahead)
    case ListedConns(conns) => ConnsOk(s, conns)
    case Pricing(_, report, _, conns) => report in s.db.reports && ConnsOk(s, conns)
    case Placing(_, report, _, conns) => report in s.db.reports && report.amountCents > 0 && ConnsOk(s, conns)
    case Stamping(_, _, _, conns) => ConnsOk(s, conns)
  }

  ghost predicate WorkersOk(s: World, lookahead: int) {
    forall w :: w in s.workers ==> WorkerOk(s, s.workers[w], lookahead)
  }

  /** The date is due under a plan the definition held, in the window of a day since its creation. */
  ghost predicate Scheduled(s: World, id: nat, due: Date, lookahead: int) {
    exists plan, day :: InSchedule(s, id, due, plan, day, lookahead)
  }

  ghost predicate InSchedule(s: World, id: nat, due: Date, plan: Plan, day: int, lookahead: int) {
    && id in s.hist && plan in s.hist[id] && InRange(plan)
    && id in s.born && s.born[id] <= day <= s.today
    && due in Window(plan, day, lookahead)
  }

  ghost predicate Explained(s: World, id: nat, due: Date, lookahead: int) {
    Scheduled(s, id, due, lookahead) || Owed(s.db.reports, id, due)
  }

  ghost predicate RowsOk(s: World, lookahead: int) {
    forall i :: i in s.db.instances ==> Explained(s, s.db.instances[i].definition, s.db.instances[i].due, lookahead)
  }

  ghost predicate DoneOk(s: World, lookahead: int) {
    forall g :: g in s.done ==> SpanOk(s, g.0, g.1, g.2) && Covered(s, g.0, g.1, g.2, lookahead, [])
  }

  ghost predicate Inv(s: World, lookahead: int) {
    Valid(s.db) && HistoryOk(s) && WorkersOk(s, lookahead) && RowsOk(s, lookahead) && DoneOk(s, lookahead)
  }

  // ----- what no step takes away -----

  ghost predicate DbGrows(a: Db, b: Db) {
    && a.nextDef <= b.nextDef
    && (forall id :: id in b.defs && id < a.nextDef ==> id in a.defs)
    && (forall i :: i in a.instances && a.instances[i].definition in b.defs ==>
          i in b.instances && SameRow(b.instances[i], a.instances[i]))
    && a.reports <= b.reports
  }

  /** No row was added or changed its definition or date. */
  ghost predicate RowsKept(a: Db, b: Db) {
    forall i :: i in b.instances ==> i in a.instances && SameRow(b.instances[i], a.instances[i])
  }

  /** Definitions keep their recorded past and their rows for as long as they exist. */
  ghost predicate Grows(a: World, b: World) {
    && DbGrows(a.db, b.db)
    && a.today <= b.today
    && (forall id :: id in b.db.defs && id in a.db.defs ==>
          && (id in a.hist ==> id in b.hist && a.hist[id] <= b.hist[id])
          && (id in a.born ==> id in b.born && b.born[id] == a.born[id]))
  }

  lemma RowsGrow(a: Db, b: Db, id: nat, due: Date)
    requires DbGrows(a, b) && HasRow(a, id, due) && id in b.defs
    ensures HasRow(b, id, due)
  {
    var i :| i in a.instances && SameRow(a.instances[i], Instance(id, due, false));
    assert i in b.instances && SameRow(b.instances[i], Instance(id, due, false));
  }

  lemma VersionGrows(a: World, b: World, id: nat, plan: Plan)
    requires Grows(a, b) && VersionOk(a, id, plan)
    ensures VersionOk(b, id, plan)
  {}

  lemma TodoGrows(a: World, b: World, todo: seq<Held>)
    requires Grows(a, b) && TodoOk(a, todo)
    ensures TodoOk(b, todo)
  {
    forall k | 0 <= k < |todo|
      ensures VersionOk(b, todo[k].id, todo[k].def.plan)
    {
      VersionGrows(a, b, todo[k].id, todo[k].def.plan);
    }
  }

  lemma CoveredGrows(a: World, b: World, id: nat, plan: Plan, day: int, lookahead: int, dates: seq<Date>)
    requires Grows(a, b) && VersionOk(a, id, plan) && Covered(a, id, plan, day, lookahead, dates)
    ensures Covered(b, id, plan, day, lookahead, dates)
  {
    if id in b.db.defs {
      forall d: Date | d in Window(plan, day, lookahead) && d !in dates
        ensures HasRow(b.db, id, d)
      {
        RowsGrow(a.db, b.db, id, d);
      }
    }
  }

  lemma WorkerGrows(a: World, b: World, k: Worker, lookahead: int)
    requires Grows(a, b) && WorkerOk(a, k, lookahead)
    ensures WorkerOk(b, k, lookahead)
  {
    match k
    case Listed(todo) => TodoGrows(a, b, todo);
    case Generating(id, plan, day, dates, todo) =>
      VersionGrows(a, b, id, plan);
      CoveredGrows(a, b, id, plan, day, lookahead, dates);
      TodoGrows(a, b, todo);
    case _ =>
  }

  lemma DoneGrows(a: World, b: World, lookahead: int)
    requires Grows(a, b) && DoneOk(a, lookahead) && b.done == a.done
    ensures DoneOk(b, lookahead)
  {
    forall g | g in b.done
      ensures SpanOk(b, g.0, g.1, g.2) && Covered(b, g.0, g.1, g.2, lookahead, [])
    {
      VersionGrows(a, b, g.0, g.1);
      CoveredGrows(a, b, g.0, g.1, g.2, lookahead, []);
    }
  }

  lemma ExplainedGrows(a: World, b: World, id: nat, due: Date, lookahead: int)
    requires Grows(a, b) && Explained(a, id, due, lookahead) && id in a.db.defs && id in b.db.defs
    ensures Explained(b, id, due, lookahead)
  {
    if Scheduled(a, id, due, lookahead) {
      var plan, day :| InSchedule(a, id, due, plan, day, lookahead);
      assert InSchedule(b, id, due, plan, day, lookahead);
    } else {
      var k :| 0 <= k < |a.db.reports| && IsOwed(a.db.reports[k], id, due);
      assert b.db.reports[k] == a.db.reports[k];
    }
  }

  /** Rows that were there, or that stand for the same pair, stay explained. */
  lemma OldRowsStayExplained(a: World, b: World, lookahead: int)
    requires Valid(a.db) && RowsOk(a, lookahead) && Grows(a, b)
    requires forall i :: i in b.db.instances ==> b.db.instances[i].definition in b.db.defs
    requires RowsKept(a.db, b.db)
    ensures RowsOk(b, lookahead)
  {
    forall i | i in b.db.instances
      ensures Explained(b, b.db.instances[i].definition, b.db.instances[i].due, lookahead)
    {
      ExplainedGrows(a, b, b.db.instances[i].definition, b.db.instances[i].due, lookahead);
    }
  }

  /** One worker changed: its new state is fine, and so are the others' unchanged ones. */
  lemma WorkersGrow(a: World, b: World, w: nat, lookahead: int)
    requires Grows(a, b) && WorkersOk(a, lookahead)
    requires forall v :: v in b.workers && v != w ==> v in a.workers && b.workers[v] == a.workers[v]
    requires w in b.workers ==> WorkerOk(b, b.workers[w], lookahead)
    ensures WorkersOk(b, lookahead)
  {
    forall v | v in b.workers && v != w
      ensures WorkerOk(b, b.workers[v], lookahead)
    {
      WorkerGrows(a, b, a.workers[v], lookahead);
    }
  }

  // ----- every step keeps the invariant -----

  /** What is left to show of a step that only a worker `w` and the tables took part in. */
  lemma StepKeepsInv(a: World, b: World, w: nat, lookahead: int)
    requires Inv(a, lookahead) && Grows(a, b) && Valid(b.db) && HistoryOk(b)
    requires RowsKept(a.db, b.db)
    requires b.done == a.done
    requires forall v :: v in b.workers && v != w ==> v in a.workers && b.workers[v] == a.workers[v]
    requires w in b.workers ==> WorkerOk(b, b.workers[w], lookahead)
    ensures Inv(b, lookahead)
  {
    WorkersGrow(a, b, w, lookahead);
    OldRowsStayExplained(a, b, lookahead);
    DoneGrows(a, b, lookahead);
  }

  /** A step that starts no worker and adds no row. */
  lemma QuietStepKeepsInv(a: World, b: World, lookahead: int)
    requires Inv(a, lookahead) && Grows(a, b) && Valid(b.db) && HistoryOk(b) && RowsKept(a.db, b.db)
    requires b.done == a.done
    requires forall v :: v in b.workers ==> v in a.workers && b.workers[v] == a.workers[v]
    ensures Inv(b, lookahead)
  {
    AllWorkersGrow(a, b, lookahead);
    OldRowsStayExplained(a, b, lookahead);
    DoneGrows(a, b, lookahead);
  }

  lemma DawnKeepsInv(s: World, step: Step, lookahead: int)
    requires Inv(s, lookahead) && step.Dawn?
    ensures Inv(After(s, step, lookahead), lookahead)
  {
    NextDayGrows(s);
    QuietStepKeepsInv(s, s.(today := s.today + 1), lookahead);
  }

  lemma NextDayGrows(s: World)
    requires HistoryOk(s)
    ensures var t := s.(today := s.today + 1); Grows(s, t) && HistoryOk(t) && RowsKept(s.db, t.db)
  {}

  lemma AddKeepsInv(s: World, step: Step, lookahead: int)
    requires Inv(s, lookahead) && step.Add?
    ensures Inv(After(s, step, lookahead), lookahead)
  {
    var w, def := step.w, step.def;
    var t := AddStep(s, w, def);
    CreateKeepsValid(s.db, def);
    assert s.db.nextDef !in s.db.defs;
    if Storable(def) {
      assert VersionOk(t, s.db.nextDef, def.plan);
      StepKeepsInv(s, t, w, lookahead);
    } else {
      QuietStepKeepsInv(s, t, lookahead);
    }
  }

  lemma AllWorkersGrow(a: World, b: World, lookahead: int)
    requires Grows(a, b) && WorkersOk(a, lookahead)
    requires forall v :: v in b.workers ==> v in a.workers && b.workers[v] == a.workers[v]
    ensures WorkersOk(b, lookahead)
  {
    forall v | v in b.workers
      ensures WorkerOk(b, b.workers[v], lookahead)
    {
      WorkerGrows(a, b, a.workers[v], lookahead);
    }
  }

  /** A step of the tables alone that adds no row. */
  lemma TablesStepKeepsInv(s: World, db: Db, lookahead: int)
    requires Inv(s, lookahead) && Valid(db) && DbGrows(s.db, db) && RowsKept(s.db, db)
    requires forall id :: id in db.defs ==> id in s.db.defs && db.defs[id].plan == s.db.defs[id].plan
    ensures Inv(s.(db := db), lookahead)
  {
    QuietStepKeepsInv(s, s.(db := db), lookahead);
  }

  lemma DeletedGrows(db: Db, id: nat)
    requires Valid(db)
    ensures DbGrows(db, Deleted(db, id)) && RowsKept(db, Deleted(db, id))
  {}

  lemma PaidGrows(db: Db, instance: nat)
    ensures DbGrows(db, Paid(db, instance)) && RowsKept(db, Paid(db, instance))
  {}

  lemma UpsertedGrows(db: Db, id: nat, login: Login)
    ensures DbGrows(db, Upserted(db, id, login)) && RowsKept(db, Upserted(db, id, login))
    ensures Upserted(db, id, login).defs == db.defs
  {}

  lemma EditedDefs(db: Db, id: nat, def: Definition, b: Db)
    requires Storable(def) && (b == Updated(db, id, def) || b == UpdatedBootstrap(db, id, def))
    ensures DbGrows(db, b) && b.instances == db.instances && b.nextDef == db.nextDef
    ensures forall d :: d in b.defs <==> d in db.defs
    ensures forall d :: d in b.defs ==> b.defs[d].plan == if d == id then def.plan else db.defs[d].plan
  {}

  lemma EditGrows(s: World, w: nat, id: nat, def: Definition, db: Db)
    requires HistoryOk(s) && Storable(def) && id < s.db.nextDef
    requires db == Updated(s.db, id, def) || db == UpdatedBootstrap(s.db, id, def)
    ensures var t := EditStep(s, w, id, def, db);
            && Grows(s, t) && HistoryOk(t) && VersionOk(t, id, def.plan)
            && t.db.instances == s.db.instances
  {
    EditedDefs(s.db, id, def, db);
  }

  lemma EditKeepsInv(s: World, step: Step, lookahead: int)
    requires Inv(s, lookahead) && (step.Edit? || step.Reload?)
    ensures Inv(After(s, step, lookahead), lookahead)
  {
    var w, id, def := step.w, step.id, step.def;
    if Storable(def) && id < s.db.nextDef {
      EditGrows(s, w, id, def, if step.Edit? then Updated(s.db, id, def) else UpdatedBootstrap(s.db, id, def));
      UpdateKeepsValid(s.db, id, def);
      StepKeepsInv(s, After(s, step, lookahead), w, lookahead);
    }
  }

  lemma RemoveKeepsInv(s: World, step: Step, lookahead: int)
    requires Inv(s, lookahead) && step.Remove?
    ensures Inv(After(s, step, lookahead), lookahead)
  {
    DeleteKeepsValid(s.db, step.id);
    DeletedGrows(s.db, step.id);
    TablesStepKeepsInv(s, Deleted(s.db, step.id), lookahead);
  }

  lemma PayKeepsInv(s: World, step: Step, lookahead: int)
    requires Inv(s, lookahead) && step.Pay?
    ensures Inv(After(s, step, lookahead), lookahead)
  {
    PaidKeepsValid(s.db, step.instance);
    PaidGrows(s.db, step.instance);
    TablesStepKeepsInv(s, Paid(s.db, step.instance), lookahead);
  }

  lemma AttachKeepsInv(s: World, step: Step, lookahead: int)
    requires Inv(s, lookahead) && step.Attach?
    ensures Inv(After(s, step, lookahead), lookahead)
  {
    UpsertKeepsValid(s.db, step.id, step.login);
    UpsertedGrows(s.db, step.id, step.login);
    TablesStepKeepsInv(s, Upserted(s.db, step.id, step.login), lookahead);
  }

  /** A step of one worker alone. */
  lemma WorkerStepKeepsInv(s: World, w: nat, k: Worker, lookahead: int)
    requires Inv(s, lookahead) && WorkerOk(s, k, lookahead)
    ensures Inv(Put(s, w, k), lookahead)
  {
    var t := Put(s, w, k);
    assert Grows(s, t);
    WorkerGrows(s, t, k, lookahead);
    StepKeepsInv(s, t, w, lookahead);
  }

  lemma BeginKeepsInv(s: World, step: Step, lookahead: int)
    requires Inv(s, lookahead) && step.Begin?
    ensures Inv(After(s, step, lookahead), lookahead)
  {
    var w := step.w;
    if BeginStep(s, w, lookahead) != s {
      var todo := s.workers[w].todo;
      assert WorkerOk(s, s.workers[w], lookahead);
      var plan := todo[0].def.plan;
      var k := Generating(todo[0].id, plan, s.today, Window(plan, s.today, lookahead), todo[1..]);
      assert GeneratingOk(s, k, lookahead);
      WorkerStepKeepsInv(s, w, k, lookahead);
    }
  }

  lemma EnsuredGrows(s: World, id: nat, due: Date)
    requires Valid(s.db) && HistoryOk(s)
    ensures var t := s.(db := Ensured(s.db, id, due));
            && Grows(s, t) && HistoryOk(t) && t.db.defs == s.db.defs
            && forall i :: i in t.db.instances ==>
                 (id in s.db.defs && t.db.instances[i] == Instance(id, due, false))
                 || (i in s.db.instances && t.db.instances[i] == s.db.instances[i])
  {
    EnsuredDbGrows(s.db, id, due);
  }

  lemma EnsuredDbGrows(db: Db, id: nat, due: Date)
    requires Valid(db)
    ensures var b := Ensured(db, id, due);
            && DbGrows(db, b) && b.defs == db.defs
            && forall i :: i in b.instances ==>
                 (id in db.defs && b.instances[i] == Instance(id, due, false))
                 || (i in db.instances && b.instances[i] == db.instances[i])
  {}

  /** A new row, explained, for a definition that exists. */
  lemma RowStepKeepsInv(s: World, id: nat, due: Date, lookahead: int)
    requires Inv(s, lookahead) && (id in s.db.defs ==> Explained(s, id, due, lookahead))
    ensures Inv(s.(db := Ensured(s.db, id, due)), lookahead)
    ensures Grows(s, s.(db := Ensured(s.db, id, due)))
  {
    var t := s.(db := Ensured(s.db, id, due));
    EnsureKeepsValid(s.db, id, due);
    EnsuredGrows(s, id, due);
    AllWorkersGrow(s, t, lookahead);
    DoneGrows(s, t, lookahead);
    NewRowIsExplained(s, t, id, due, lookahead);
  }

  lemma NewRowIsExplained(s: World, t: World, id: nat, due: Date, lookahead: int)
    requires Valid(s.db) && RowsOk(s, lookahead) && Grows(s, t) && t.db.defs == s.db.defs
    requires id in s.db.defs ==> Explained(s, id, due, lookahead)
    requires forall i :: i in t.db.instances ==>
               (id in s.db.defs && t.db.instances[i] == Instance(id, due, false))
               || (i in s.db.instances && t.db.instances[i] == s.db.instances[i])
    ensures RowsOk(t, lookahead)
  {
    forall i | i in t.db.instances
      ensures Explained(t, t.db.instances[i].definition, t.db.instances[i].due, lookahead)
    {
      ExplainedGrows(s, t, t.db.instances[i].definition, t.db.instances[i].due, lookahead);
    }
  }

  lemma EnsureKeepsInv(s: World, step: Step, lookahead: int)
    requires Inv(s, lookahead) && step.EnsureNext?
    ensures Inv(After(s, step, lookahead), lookahead)
  {
    var w, ok := step.w, step.ok;
    if w in s.workers && s.workers[w].Generating? && s.workers[w].dates != [] {
      var k := s.workers[w];
      assert WorkerOk(s, k, lookahead);
      if ok && k.id in s.db.defs {
        assert InSchedule(s, k.id, k.dates[0], k.plan, k.day, lookahead);
        RowStepKeepsInv(s, k.id, k.dates[0], lookahead);
        var t := s.(db := Ensured(s.db, k.id, k.dates[0]));
        EnsuredHasRow(s.db, k.id, k.dates[0]);
        var k' := k.(dates := k.dates[1..]);
        WorkerGrows(s, t, k, lookahead);
        assert forall d: Date :: d in k.dates ==> d == k.dates[0] || d in k'.dates;
        assert GeneratingOk(t, k', lookahead);
        WorkerStepKeepsInv(t, w, k', lookahead);
      } else {
        WorkerStepKeepsInv(s, w, Listed(k.todo), lookahead);
      }
    }
  }

  lemma FinishKeepsInv(s: World, step: Step, lookahead: int)
    requires Inv(s, lookahead) && step.Finish?
    ensures Inv(After(s, step, lookahead), lookahead)
  {
    var w := step.w;
    if w in s.workers && s.workers[w].Generating? && s.workers[w].dates == [] {
      var k := s.workers[w];
      assert WorkerOk(s, k, lookahead);
      var t := s.(done := s.done + {(k.id, k.plan, k.day)});
      assert Grows(s, t);
      AllWorkersGrow(s, t, lookahead);
      OldRowsStayExplained(s, t, lookahead);
      DoneGrows(s, t.(done := s.done), lookahead);
      WorkerStepKeepsInv(t, w, Listed(k.todo), lookahead);
    }
  }

  lemma FetchKeepsInv(s: World, step: Step, lookahead: int)
    requires Inv(s, lookahead) && step.Fetch?
    ensures Inv(After(s, step, lookahead), lookahead)
  {
    var w, answer := step.w, step.answer;
    if w in s.workers && s.workers[w].ListedConns? && s.workers[w].conns != [] {
      var conns := s.workers[w].conns;
      assert WorkerOk(s, s.workers[w], lookahead);
      if answer.Snapshot? {
        var r := Report(conns[0].definition, answer.amountCents, answer.due);
        var db := Noted(s.db, r);
        TablesStepKeepsInv(s, db, lookahead);
        assert db.reports[|s.db.reports|] == r;
        WorkerStepKeepsInv(s.(db := db), w, Pricing(conns[0].conn, r, answer.account, conns[1..]), lookahead);
      } else {
        WorkerStepKeepsInv(s, w, Stamping(conns[0].conn, "", Some(answer.reason), conns[1..]), lookahead);
      }
    }
  }

  lemma PriceKeepsInv(s: World, step: Step, lookahead: int)
    requires Inv(s, lookahead) && step.Price?
    ensures Inv(After(s, step, lookahead), lookahead)
  {
    var w, ok := step.w, step.ok;
    if w in s.workers && s.workers[w].Pricing? {
      var k := s.workers[w];
      assert WorkerOk(s, k, lookahead);
      var db := if ok then Repriced(s.db, k.report.definition, k.report.amountCents) else s.db;
      RepriceKeepsValid(s.db, k.report.definition, k.report.amountCents);
      TablesStepKeepsInv(s, db, lookahead);
      WorkerStepKeepsInv(s.(db := db), w, PriceStep(s, w, ok).workers[w], lookahead);
    }
  }

  lemma PlaceKeepsInv(s: World, step: Step, lookahead: int)
    requires Inv(s, lookahead) && step.Place?
    ensures Inv(After(s, step, lookahead), lookahead)
  {
    var w, ok := step.w, step.ok;
    if w in s.workers && s.workers[w].Placing? {
      var k := s.workers[w];
      assert WorkerOk(s, k, lookahead);
      var j :| 0 <= j < |s.db.reports| && s.db.reports[j] == k.report;
      assert IsOwed(s.db.reports[j], k.report.definition, k.report.due);
      if ok {
        RowStepKeepsInv(s, k.report.definition, k.report.due, lookahead);
      }
      var t := s.(db := if ok then Ensured(s.db, k.report.definition, k.report.due) else s.db);
      WorkerStepKeepsInv(t, w, Stamping(k.conn, k.account, None, k.conns), lookahead);
    }
  }

  lemma StampKeepsInv(s: World, step: Step, lookahead: int)
    requires Inv(s, lookahead) && step.Stamp?
    ensures Inv(After(s, step, lookahead), lookahead)
  {
    var w, now, ok := step.w, step.now, step.ok;
    if w in s.workers && s.workers[w].Stamping? {
      var k := s.workers[w];
      assert WorkerOk(s, k, lookahead);
      var db := if ok then Synced(s.db, k.conn, now, k.account, k.error) else s.db;
      SyncedKeepsValid(s.db, k.conn, now, k.account, k.error);
      TablesStepKeepsInv(s, db, lookahead);
      WorkerStepKeepsInv(s.(db := db), w, ListedConns(k.conns), lookahead);
    }
  }

  lemma ListsKeepInv(s: World, step: Step, lookahead: int)
    requires Inv(s, lookahead) && (step.List? || step.ListConns? || step.Skip? || step.Crash?)
    ensures Inv(After(s, step, lookahead), lookahead)
  {
    var t := After(s, step, lookahead);
    if t != s && !step.Crash? {
      if step.Skip? {
        assert WorkerOk(s, s.workers[step.w], lookahead);
      }
      WorkerStepKeepsInv(s, step.w, t.workers[step.w], lookahead);
    } else if step.Crash? {
      QuietStepKeepsInv(s, t, lookahead);
    }
  }

  /** Every step of every worker keeps the invariant. */
  lemma AfterKeepsInv(s: World, step: Step, lookahead: int)
    requires Inv(s, lookahead)
    ensures Inv(After(s, step, lookahead), lookahead)
  {
    match step
    case Dawn => DawnKeepsInv(s, step, lookahead);
    case Add(_, _) => AddKeepsInv(s, step, lookahead);
    case Edit(_, _, _) => EditKeepsInv(s, step, lookahead);
    case Reload(_, _, _) => EditKeepsInv(s, step, lookahead);
    case Remove(_) => RemoveKeepsInv(s, step, lookahead);
    case Pay(_) => PayKeepsInv(s, step, lookahead);
    case Attach(_, _) => AttachKeepsInv(s, step, lookahead);
    case Begin(_) => BeginKeepsInv(s, step, lookahead);
    case EnsureNext(_, _) => EnsureKeepsInv(s, step, lookahead);
    case Finish(_) => FinishKeepsInv(s, step, lookahead);
    case Fetch(_, _) => FetchKeepsInv(s, step, lookahead);
    case Price(_, _) => PriceKeepsInv(s, step, lookahead);
    case Place(_, _) => PlaceKeepsInv(s, step, lookahead);
    case Stamp(_, _, _) => StampKeepsInv(s, step, lookahead);
    case _ => ListsKeepInv(s, step, lookahead);
  }

  /** The invariant holds in every reachable state, whatever the interleaving. */
  lemma {:induction false} ReachKeepsInv(today: int, steps: seq<Step>, lookahead: int)
    ensures Inv(Reach(Initial(today), steps, lookahead), lookahead)
    decreases |steps|
  {
    if steps == [] {
    } else {
      var before, step := steps[..|steps| - 1], steps[|steps| - 1];
      ReachKeepsInv(today, before, lookahead);
      var s := Reach(Initial(today), before, lookahead);
      AfterKeepsInv(s, step, lookahead);
    }
  }

  // ----- the theorems -----

  /**
   Provenance. In every interleaving of ticks on stale snapshots with creation,
   edits, deletion, payment and vendor refreshes, every instance belongs to a
   definition that exists, is the only one for its definition and date, and has
   a date that was due under a plan the definition held, in the window of some
   day since its creation, or that a vendor reported with something owed.
   */
  lemma EveryInstanceIsExplained(today: int, steps: seq<Step>, lookahead: int, i: nat)
    requires i in Reach(Initial(today), steps, lookahead).db.instances
    ensures var s := Reach(Initial(today), steps, lookahead);
            var r := s.db.instances[i];
            && r.definition in s.db.defs
            && (forall j :: j in s.db.instances && SameRow(s.db.instances[j], r) ==> j == i)
            && (Owed(s.db.reports, r.definition, r.due)
                || exists plan, day :: WasDue(s, r.definition, r.due, plan, day, lookahead))
  {
    ReachKeepsInv(today, steps, lookahead);
    RowIsExplained(Reach(Initial(today), steps, lookahead), lookahead, i);
  }

  /** Due under a plan the definition held, in the window of a day it existed on. */
  ghost predicate WasDue(s: World, id: nat, due: Date, plan: Plan, day: int, lookahead: int) {
    && id in s.hist && plan in s.hist[id]
    && id in s.born && s.born[id] <= day <= s.today
    && IsDue(plan, due) && day <= Ordinal(due) <= day + lookahead
  }

  lemma RowIsExplained(s: World, lookahead: int, i: nat)
    requires Inv(s, lookahead) && i in s.db.instances
    ensures var r := s.db.instances[i];
            || Owed(s.db.reports, r.definition, r.due)
            || exists plan, day :: WasDue(s, r.definition, r.due, plan, day, lookahead)
  {
    var r := s.db.instances[i];
    assert Explained(s, r.definition, r.due, lookahead);
    if !Owed(s.db.reports, r.definition, r.due) {
      var plan, day :| InSchedule(s, r.definition, r.due, plan, day, lookahead);
      WindowIsExact(plan, day, lookahead, r.due);
      assert WasDue(s, r.definition, r.due, plan, day, lookahead);
    }
  }

  /** A worker never meets the missing-field guards of `NextDueDates`. */
  lemma GuardsAreNeverTaken(today: int, steps: seq<Step>, lookahead: int, w: nat, k: nat)
    requires var s := Reach(Initial(today), steps, lookahead);
             w in s.workers && s.workers[w].Listed? && k < |s.workers[w].todo|
    ensures var p := Reach(Initial(today), steps, lookahead).workers[w].todo[k].def.plan;
            && (p.kind == OneOff ==> p.oneOffDate.Some?)
            && (p.kind == Monthly || p.kind == Quarterly ==> p.dayOfMonth.Some? && 1 <= p.dayOfMonth.value <= 31)
            && (p.kind == Quarterly ==> p.quarterStart.Some? && 1 <= p.quarterStart.value <= 3)
  {
    ReachKeepsInv(today, steps, lookahead);
    var s := Reach(Initial(today), steps, lookahead);
    assert WorkerOk(s, s.workers[w], lookahead);
  }

  /** Days of completed generations, none more than `lookahead + 1` after the one before. */
  ghost predicate Chain(s: World, id: nat, plan: Plan, days: seq<int>, lookahead: int) {
    && days != []
    && (forall k :: 0 <= k < |days| ==> (id, plan, days[k]) in s.done)
    && (forall k :: 0 <= k < |days| - 1 ==> days[k] <= days[k + 1] <= days[k] + lookahead + 1)
  }

  lemma {:induction false} ChainCovers(days: seq<int>, lookahead: int, n: int) returns (k: nat)
    requires days != []
    requires forall k :: 0 <= k < |days| - 1 ==> days[k] <= days[k + 1] <= days[k] + lookahead + 1
    requires days[0] <= n <= days[|days| - 1] + lookahead
    ensures k < |days| && days[k] <= n <= days[k] + lookahead
  {
    k := 0;
    while days[k] + lookahead < n
      invariant k < |days| && days[k] <= n
      decreases |days| - k
    {
      k := k + 1;
    }
  }

  /**
   No gaps. Take completed generations for one plan of a definition that still
   exists, on days never more than lookahead + 1 apart. Then every due date from
   the first of these days to the last plus lookahead has an instance: whatever
   failed or partial ticks, edits, vendor reports, payments and crashes came in
   between, and whatever plan the definition has by now.
   */
  lemma NoGaps(today: int, steps: seq<Step>, lookahead: int, id: nat, plan: Plan, days: seq<int>, d: Date)
    requires var s := Reach(Initial(today), steps, lookahead);
             id in s.db.defs && Chain(s, id, plan, days, lookahead)
    requires IsDue(plan, d) && days[0] <= Ordinal(d) <= days[|days| - 1] + lookahead
    ensures HasRow(Reach(Initial(today), steps, lookahead).db, id, d)
  {
    ReachKeepsInv(today, steps, lookahead);
    var s := Reach(Initial(today), steps, lookahead);
    var k := ChainCovers(days, lookahead, Ordinal(d));
    assert (id, plan, days[k]) in s.done;
    assert VersionOk(s, id, plan) && Covered(s, id, plan, days[k], lookahead, []);
    WindowIsExact(plan, days[k], lookahead, d);
  }

  /**
   Nothing else. While a definition has had one plan only, its instances are due
   dates since its creation, or reported.
   */
  lemma NothingElse(today: int, steps: seq<Step>, lookahead: int, id: nat, plan: Plan, d: Date)
    requires var s := Reach(Initial(today), steps, lookahead);
             HasRow(s.db, id, d) && id in s.hist && s.hist[id] == {plan}
    ensures var s := Reach(Initial(today), steps, lookahead);
            || Owed(s.db.reports, id, d)
            || (id in s.born && IsDue(plan, d) && s.born[id] <= Ordinal(d) <= s.today + lookahead)
  {
    ReachKeepsInv(today, steps, lookahead);
    var s := Reach(Initial(today), steps, lookahead);
    var i :| i in s.db.instances && SameRow(s.db.instances[i], Instance(id, d, false));
    assert Explained(s, id, d, lookahead);
    if !Owed(s.db.reports, id, d) {
      var p, day :| InSchedule(s, id, d, p, day, lookahead);
      WindowIsExact(p, day, lookahead, d);
    }
  }

  /**
   Together: with one plan since the creation, generations since then and no
   vendor report, the instances up to the end of the last window are exactly
   the due dates since the creation.
   */
  lemma ExactlyTheDueDates(today: int, steps: seq<Step>, lookahead: int, id: nat, plan: Plan, days: seq<int>, d: Date)
    requires var s := Reach(Initial(today), steps, lookahead);
             && id in s.db.defs && id in s.hist && s.hist[id] == {plan} && !Owed(s.db.reports, id, d)
             && Chain(s, id, plan, days, lookahead) && id in s.born && days[0] == s.born[id]
    requires Ordinal(d) <= days[|days| - 1] + lookahead
    ensures var s := Reach(Initial(today), steps, lookahead);
            HasRow(s.db, id, d) <==> IsDue(plan, d) && s.born[id] <= Ordinal(d)
  {
    var s := Reach(Initial(today), steps, lookahead);
    if HasRow(s.db, id, d) {
      NothingElse(today, steps, lookahead, id, plan, d);
    }
    if IsDue(plan, d) && days[0] <= Ordinal(d) {
      NoGaps(today, steps, lookahead, id, plan, days, d);
    }
  }

  /** With a lookahead of 30 days or more, a completed tick leaves every monthly bill an instance in its window. */
  lemma MonthlyAlwaysUpcoming(today: int, steps: seq<Step>, lookahead: int, id: nat, plan: Plan, day: int)
    requires lookahead >= 30
    requires var s := Reach(Initial(today), steps, lookahead);
             id in s.db.defs && plan.kind == Monthly && (id, plan, day) in s.done
    ensures var s := Reach(Initial(today), steps, lookahead);
            exists d: Date :: HasRow(s.db, id, d) && IsDue(plan, d) && day <= Ordinal(d) <= day + lookahead
  {
    ReachKeepsInv(today, steps, lookahead);
    var s := Reach(Initial(today), steps, lookahead);
    assert SpanOk(s, id, plan, day) && Covered(s, id, plan, day, lookahead, []);
    var from := OfOrdinal(day);
    OrdinalRoundTrip(day, from);
    AddDaysIsExact(from, lookahead);
    WindowIsNotEmpty(plan, from, AddDate(from, 0, 0, lookahead));
    var d := Window(plan, day, lookahead)[0];
    WindowIsExact(plan, day, lookahead, d);
    assert HasRow(s.db, id, d);
  }

  // ----- payments in the running service -----

  /** `call` is the store call a step makes; `None` if it makes none. */
  ghost predicate Makes(s: World, step: Step, lookahead: int, call: Option<Call>) {
    && After(s, step, lookahead).db == (if call.Some? then Apply(s.db, call.value) else s.db)
    && (call.Some? && call.value.Delete? ==> step == Remove(call.value.id))
    && (call.Some? && call.value.MarkPaid? <==> step.Pay?)
    && (step.Pay? ==> call == Some(MarkPaid(step.instance)))
  }

  lemma HandlerMakes(s: World, step: Step, lookahead: int) returns (call: Option<Call>)
    requires step.Add? || step.Edit? || step.Reload? || step.Remove? || step.Pay? || step.Attach?
    ensures Makes(s, step, lookahead, call)
  {
    match step
    case Add(_, def) => call := Some(Create(def));
    case Edit(_, id, def) => call := if Storable(def) && id < s.db.nextDef then Some(Update(id, def)) else None;
    case Reload(_, id, def) =>
      call := if Storable(def) && id < s.db.nextDef then Some(UpdateBootstrap(id, def)) else None;
    case Remove(id) => call := Some(Delete(id));
    case Pay(i) => call := Some(MarkPaid(i));
    case Attach(id, login) => call := Some(Upsert(id, login));
  }

  lemma EnsureMakes(s: World, step: Step, lookahead: int) returns (call: Option<Call>)
    requires step.EnsureNext?
    ensures Makes(s, step, lookahead, call)
  {
    call := None;
    if After(s, step, lookahead).db != s.db {
      call := Some(Ensure(s.workers[step.w].id, s.workers[step.w].dates[0]));
    }
  }

  lemma FetchMakes(s: World, step: Step, lookahead: int) returns (call: Option<Call>)
    requires step.Fetch?
    ensures Makes(s, step, lookahead, call)
  {
    call := None;
    if After(s, step, lookahead).db != s.db {
      call := Some(Answer(Report(s.workers[step.w].conns[0].definition, step.answer.amountCents, step.answer.due)));
    }
  }

  lemma PriceMakes(s: World, step: Step, lookahead: int) returns (call: Option<Call>)
    requires step.Price?
    ensures Makes(s, step, lookahead, call)
  {
    call := None;
    if After(s, step, lookahead).db != s.db {
      var r := s.workers[step.w].report;
      call := Some(UpdateAmount(r.definition, r.amountCents));
    }
  }

  lemma PlaceMakes(s: World, step: Step, lookahead: int) returns (call: Option<Call>)
    requires step.Place?
    ensures Makes(s, step, lookahead, call)
  {
    call := None;
    if After(s, step, lookahead).db != s.db {
      var r := s.workers[step.w].report;
      call := Some(Ensure(r.definition, r.due));
    }
  }

  lemma StampMakes(s: World, step: Step, lookahead: int) returns (call: Option<Call>)
    requires step.Stamp?
    ensures Makes(s, step, lookahead, call)
  {
    call := None;
    if After(s, step, lookahead).db != s.db {
      var k := s.workers[step.w];
      call := Some(MarkSynced(k.conn, step.now, k.account, k.error));
    }
  }

  /** What a step does to the tables is at most one store call. */
  lemma StepMakesOneCall(s: World, step: Step, lookahead: int) returns (call: Option<Call>)
    ensures Makes(s, step, lookahead, call)
  {
    call := None;
    match step
    case EnsureNext(_, _) => call := EnsureMakes(s, step, lookahead);
    case Fetch(_, _) => call := FetchMakes(s, step, lookahead);
    case Price(_, _) => call := PriceMakes(s, step, lookahead);
    case Place(_, _) => call := PlaceMakes(s, step, lookahead);
    case Stamp(_, _, _) => call := StampMakes(s, step, lookahead);
    case _ =>
      if step.Add? || step.Edit? || step.Reload? || step.Remove? || step.Pay? || step.Attach? {
        call := HandlerMakes(s, step, lookahead);
      }
  }

  /**
   Paid is final in the running service: whatever ticks, refreshes, edits and
   crashes interleave, an instance stays, and stays paid once it is, until its
   definition is deleted; and it becomes paid only by being marked.
   */
  lemma {:induction false} PaidStaysPaid(s: World, steps: seq<Step>, lookahead: int, i: nat)
    requires Valid(s.db) && i in s.db.instances && Remove(s.db.instances[i].definition) !in steps
    ensures var t := Reach(s, steps, lookahead);
            && Valid(t.db) && i in t.db.instances
            && t.db.instances[i] == s.db.instances[i].(paid := s.db.instances[i].paid || Pay(i) in steps)
    decreases |steps|
  {
    if steps == [] {
    } else {
      var n := |steps| - 1;
      var before, step := steps[..n], steps[n];
      assert forall x :: x in steps <==> x in before || x == step;
      PaidStaysPaid(s, before, lookahead, i);
      var mid := Reach(s, before, lookahead);
      var call := StepMakesOneCall(mid, step, lookahead);
      if call.Some? {
        CallKeepsValid(mid.db, call.value);
        CallOnRow(mid.db, call.value, i);
      }
    }
  }
}
