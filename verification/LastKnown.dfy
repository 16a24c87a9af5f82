/**
 The last known good amount: a bill that bills.json leaves to a vendor shows
 what the vendor last reported, whatever restarts and failures come between.
 */
module LastKnown {
  import opened Civil
  import opened Schedule
  import opened Ledger
  import opened World
  import opened Entries
  import opened Refresh
  import opened Handlers
  import opened Reconcile
  import opened Footprint
  import opened ReconcileResult
  import opened ReconcileNames

  /** The amount of the last report about a definition. */
  function LastAmount(reports: seq<Report>, id: nat, initial: int): int
    decreases |reports|
  {
    if reports == [] then initial
    else
      var n := |reports| - 1;
      if reports[n].definition == id then reports[n].amountCents else LastAmount(reports[..n], id, initial)
  }

  /**
   A vendor bill of the file as it should be: its amount is the last reported
   one, or the one it was created with, and each instance is a reported due
   date with something owed.
   */
  ghost predicate Good(db: Db, id: nat, name: string, initial: int) {
    && id in db.defs && db.defs[id].name == name && db.defs[id].managed && db.defs[id].plan.kind == Vendor
    && db.defs[id].amountCents == LastAmount(db.reports, id, initial)
    && (forall i :: i in db.instances && db.instances[i].definition == id ==> Owed(db.reports, id, db.instances[i].due))
  }

  // ----- writes about other definitions -----

  lemma {:induction false} OthersDoNotCount(a: seq<Report>, b: seq<Report>, id: nat, initial: int)
    requires a <= b && forall k :: |a| <= k < |b| ==> b[k].definition != id
    ensures LastAmount(b, id, initial) == LastAmount(a, id, initial)
    decreases |b|
  {
    if |a| < |b| {
      OthersDoNotCount(a, b[..|b| - 1], id, initial);
    } else {
      assert a == b;
    }
  }

  lemma OwedStays(a: seq<Report>, b: seq<Report>, id: nat, due: Date)
    requires a <= b && Owed(a, id, due)
    ensures Owed(b, id, due)
  {
    var k :| 0 <= k < |a| && IsOwed(a[k], id, due);
    assert IsOwed(b[k], id, due);
  }

  lemma OtherKeepsGood(a: Db, b: Db, other: nat, id: nat, name: string, initial: int)
    requires Good(a, id, name, initial) && other != id && OnlyTouches(a, b, other) && ReportsOf(a, b, other)
    ensures Good(b, id, name, initial)
  {
    OthersDoNotCount(a.reports, b.reports, id, initial);
    forall i | i in b.instances && b.instances[i].definition == id
      ensures Owed(b.reports, id, b.instances[i].due)
    {
      OwedStays(a.reports, b.reports, id, b.instances[i].due);
    }
  }

  /** Writes that leave the bill's row, its instances' dates and the reports alone. */
  lemma QuietKeepsGood(a: Db, b: Db, id: nat, name: string, initial: int)
    requires Good(a, id, name, initial) && b.reports == a.reports
    requires id in b.defs && b.defs[id] == a.defs[id]
    requires forall i :: i in b.instances && b.instances[i].definition == id ==>
               i in a.instances && SameRow(b.instances[i], a.instances[i])
    ensures Good(b, id, name, initial)
  {}

  // ----- a report about the bill itself -----

  /** The writes of a refresh go through; the amounts fit their column. */
  predicate Works(answer: Fetched, health: Health) {
    health.price && health.place && (answer.Snapshot? ==> FitsInteger(answer.amountCents))
  }

  /** What a working refresh writes. */
  lemma RecordedTables(db: Db, r: Report, health: Health)
    requires Valid(db) && r.definition in db.defs && health.price && health.place && FitsInteger(r.amountCents)
    ensures var b := Recorded(db, r, health);
            && b.reports == db.reports + [r]
            && b.defs == db.defs[r.definition := db.defs[r.definition].(amountCents := r.amountCents)]
            && (forall i :: i in b.instances && i !in db.instances ==>
                  r.amountCents > 0 && b.instances[i] == Instance(r.definition, r.due, false))
            && (forall i :: i in b.instances && i in db.instances ==> b.instances[i] == db.instances[i])
  {}

  lemma RecordedKeepsGood(db: Db, r: Report, health: Health, name: string, initial: int)
    requires Valid(db) && Good(db, r.definition, name, initial) && health.price && health.place
    requires FitsInteger(r.amountCents)
    ensures Good(Recorded(db, r, health), r.definition, name, initial)
  {
    var id, b := r.definition, Recorded(db, r, health);
    RecordedTables(db, r, health);
    LastIsLast(db.reports, r, initial);
    forall i | i in b.instances && b.instances[i].definition == id
      ensures Owed(b.reports, id, b.instances[i].due)
    {
      if i in db.instances {
        OwedStays(db.reports, b.reports, id, db.instances[i].due);
      } else {
        assert IsOwed(b.reports[|db.reports|], id, b.instances[i].due);
      }
    }
  }

  lemma LastIsLast(reports: seq<Report>, r: Report, initial: int)
    ensures LastAmount(reports + [r], r.definition, initial) == r.amountCents
  {}

  lemma RefreshKeepsGood(db: Db, conn: nat, definition: nat, answer: Fetched, now: int, health: Health,
                         id: nat, name: string, initial: int)
    requires Valid(db) && Good(db, id, name, initial) && Works(answer, health)
    requires conn in db.conns ==> db.conns[conn].definition == definition
    ensures Valid(RefreshedNow(db, conn, definition, answer, now, health))
    ensures Good(RefreshedNow(db, conn, definition, answer, now, health), id, name, initial)
  {
    RefreshedFollows(db, conn, definition, answer, now, health);
    var b := RefreshedNow(db, conn, definition, answer, now, health);
    if definition != id {
      OtherKeepsGood(db, b, definition, id, name, initial);
    } else if answer.Snapshot? {
      var r := Report(id, answer.amountCents, answer.due);
      RecordedKeepsGood(db, r, health, name, initial);
      QuietKeepsGood(Recorded(db, r, health), b, id, name, initial);
    } else {
      QuietKeepsGood(db, b, id, name, initial);
    }
  }

  lemma AttachKeepsGood(db: Db, other: nat, e: Entry, i: nat, env: Env, id: nat, name: string, initial: int)
    requires Valid(db) && Good(db, id, name, initial) && Works(env.fetch(i), env.health(i))
    ensures Good(Attached(db, other, e, i, env), id, name, initial)
  {
    if Usable(e) {
      var login := Login(e.connector, e.tenant, e.username, e.password.value);
      var db1 := Upserted(db, other, login);
      UpsertedFollows(db, other, login);
      UpsertKeepsReports(db, other, login);
      QuietKeepsGood(db, db1, id, name, initial);
      if HasConn(db1, other) {
        var c := ConnOf(db1, other);
        RefreshKeepsGood(db1, c, other, env.fetch(i), env.now(i), env.health(i), id, name, initial);
      }
    }
  }

  lemma UpsertKeepsReports(db: Db, id: nat, login: Login)
    ensures Upserted(db, id, login).reports == db.reports
  {}

  // ----- restarts -----

  ghost predicate OnlyConnectors(entries: seq<Entry>, name: string) {
    forall k :: 0 <= k < |entries| && IsValidNamed(entries[k], name) ==> entries[k].connector != ""
  }

  /** The file still has the bill, and only as a connector entry. */
  ghost predicate StaysConnector(entries: seq<Entry>, name: string) {
    Seen(entries, name) && OnlyConnectors(entries, name)
  }

  ghost predicate EnvWorks(env: Env) {
    IsChooser(env.pick) && forall i: nat :: Works(env.fetch(i), env.health(i))
  }

  lemma OwnEntryKeepsGood(db: Db, e: Entry, i: nat, env: Env, id: nat, name: string, initial: int)
    requires Valid(db) && Good(db, id, name, initial) && EnvWorks(env)
    requires FromEntry(e).Some? && e.name == name && e.connector != ""
    requires Named(db, name) != {} && env.pick(i, Named(db, name)) == id
    ensures Good(EntryDone(db, e, i, env), id, name, initial)
  {
    EntryMeetsCheck(e);
    var def := FromEntry(e).value;
    var def' := Incoming(def, e, db.defs[id]);
    if env.ok(i, Lookup) && env.ok(i, Write) && Storable(def') {
      var updated := UpdatedBootstrap(db, id, def');
      UpdateKeepsValid(db, id, def');
      assert updated.defs[id].amountCents == db.defs[id].amountCents && updated.defs[id].plan.kind == Vendor;
      assert Good(updated, id, name, initial);
      AttachKeepsGood(updated, id, e, i, env, id, name, initial);
    }
  }

  lemma EntryKeepsGood(db: Db, e: Entry, i: nat, env: Env, id: nat, name: string, initial: int)
    requires Valid(db) && Good(db, id, name, initial) && EnvWorks(env)
    requires IsValidNamed(e, name) ==> e.connector != ""
    ensures Valid(EntryDone(db, e, i, env)) && Good(EntryDone(db, e, i, env), id, name, initial)
  {
    var other := EntryOnManaged(db, e, i, env);
    if other != id {
      OtherKeepsGood(db, EntryDone(db, e, i, env), other, id, name, initial);
    } else if FromEntry(e).Some? && Named(db, e.name) != {} && env.pick(i, Named(db, e.name)) == id {
      OwnEntryKeepsGood(db, e, i, env, id, name, initial);
    } else {
      ElsewhereKeepsGood(db, e, i, env, id, name, initial);
    }
  }

  /** The entry is about no row, a new row or another row. */
  lemma ElsewhereKeepsGood(db: Db, e: Entry, i: nat, env: Env, id: nat, name: string, initial: int)
    requires Valid(db) && Good(db, id, name, initial) && EnvWorks(env)
    requires FromEntry(e).None? || Named(db, e.name) == {} || env.pick(i, Named(db, e.name)) != id
    ensures Good(EntryDone(db, e, i, env), id, name, initial)
  {
    if FromEntry(e).Some? {
      EntryMeetsCheck(e);
      if Named(db, e.name) == {} {
        EntryInserts(db, e, i, env);
        OtherKeepsGood(db, EntryDone(db, e, i, env), db.nextDef, id, name, initial);
      } else {
        var found := env.pick(i, Named(db, e.name));
        var def := FromEntry(e).value;
        var def' := Incoming(def, e, db.defs[found]);
        if env.ok(i, Lookup) && db.defs[found].managed && env.ok(i, Write) && Storable(def') {
          UpdatedThen(db, found, def', def.plan, e, i, env);
          OtherKeepsGood(db, EntryDone(db, e, i, env), found, id, name, initial);
        }
      }
    }
  }

  lemma {:induction false} EntriesKeepGood(db: Db, entries: seq<Entry>, env: Env, id: nat, name: string, initial: int)
    requires Valid(db) && Good(db, id, name, initial) && EnvWorks(env)
    requires OnlyConnectors(entries, name)
    ensures Valid(EntriesDone(db, entries, env)) && Good(EntriesDone(db, entries, env), id, name, initial)
    decreases |entries|
  {
    if entries == [] {
    } else {
      var n := |entries| - 1;
      EntriesKeepGood(db, entries[..n], env, id, name, initial);
      EntryKeepsGood(EntriesDone(db, entries[..n], env), entries[n], n, env, id, name, initial);
    }
  }

  lemma RestartKeepsGood(db: Db, entries: seq<Entry>, env: Env, id: nat, name: string, initial: int)
    requires Valid(db) && Good(db, id, name, initial) && EnvWorks(env) && StaysConnector(entries, name)
    ensures Good(Reconciled(db, entries, env), id, name, initial)
  {
    EntriesKeepGood(db, entries, env, id, name, initial);
    var done := EntriesDone(db, entries, env);
    var ids := Doomed(done, entries, env);
    assert id !in ids;
    QuietKeepsGood(done, Removed(done, ids), id, name, initial);
  }

  // ----- everything else that can happen -----

  datatype Event =
    | Restart(entries: seq<Entry>, env: Env)
    | Pass(rows: seq<Row>, answers: Answers)
    | Tick(listed: seq<Held>, clocks: nat -> Clock)
    | Add(form: Form, clock: Clock)
    | Edit(id: nat, form: Form, clock: Clock)
    | Drop(id: nat)
    | Pay(instance: nat)

  ghost predicate IsListing(db: Db, rows: seq<Row>) {
    forall k :: 0 <= k < |rows| ==> rows[k].conn in db.conns && db.conns[rows[k].conn] == rows[k].row
  }

  ghost predicate IsTickListing(db: Db, listed: seq<Held>) {
    forall k :: 0 <= k < |listed| ==> listed[k].id in db.defs && db.defs[listed[k].id] == listed[k].def
  }

  /** What can happen in a state: the lists are what the tables hold; the writes of refreshes go through. */
  ghost predicate CanHappen(db: Db, event: Event, name: string) {
    match event
    case Restart(entries, env) => EnvWorks(env) && StaysConnector(entries, name)
    case Pass(rows, answers) => IsListing(db, rows) && forall n: nat :: Works(answers.fetch(n), answers.health(n))
    case Tick(listed, _) => IsTickListing(db, listed)
    case _ => true
  }

  ghost function Happened(db: Db, event: Event, name: string): Db
    requires Valid(db) && CanHappen(db, event, name)
  {
    match event
    case Restart(entries, env) => Reconciled(db, entries, env)
    case Pass(rows, answers) => Passed(db, rows, answers)
    case Tick(listed, clocks) => Ticked(db, listed, clocks)
    case Add(form, clock) => BillAdded(db, form, clock)
    case Edit(id, form, clock) => BillUpdated(db, id, form, clock)
    case Drop(id) => BillDeleted(db, id)
    case Pay(instance) => Paid(db, instance)
  }

  /** Connections keep their definition through a pass, so the listed rows stay right about it. */
  ghost predicate RowsRight(db: Db, rows: seq<Row>) {
    forall k :: 0 <= k < |rows| && rows[k].conn in db.conns ==>
      db.conns[rows[k].conn].definition == rows[k].row.definition
  }

  lemma RefreshKeepsRowsRight(db: Db, conn: nat, definition: nat, answer: Fetched, now: int, health: Health,
                              rows: seq<Row>)
    requires RowsRight(db, rows)
    ensures RowsRight(RefreshedNow(db, conn, definition, answer, now, health), rows)
  {
    if answer.Snapshot? {
      RecordedKeepsConns(db, Report(definition, answer.amountCents, answer.due), health);
    }
  }

  lemma {:induction false} PassKeepsGood(db: Db, rows: seq<Row>, answers: Answers, all: seq<Row>, id: nat,
                                         name: string, initial: int)
    requires Valid(db) && Good(db, id, name, initial) && RowsRight(db, all) && rows <= all
    requires forall n: nat :: Works(answers.fetch(n), answers.health(n))
    ensures var b := Passed(db, rows, answers); Valid(b) && Good(b, id, name, initial) && RowsRight(b, all)
    decreases |rows|
  {
    if rows == [] {
    } else {
      var n := |rows| - 1;
      PassKeepsGood(db, rows[..n], answers, all, id, name, initial);
      var mid := Passed(db, rows[..n], answers);
      assert all[n] == rows[n];
      RefreshKeepsGood(mid, rows[n].conn, rows[n].row.definition, answers.fetch(n), answers.now(n), answers.health(n),
                       id, name, initial);
      RefreshKeepsRowsRight(mid, rows[n].conn, rows[n].row.definition, answers.fetch(n), answers.now(n),
                            answers.health(n), all);
    }
  }

  /** Generating for another bill, or for this one, whose plan has no dates of its own. */
  lemma GenerateKeepsGood(db: Db, other: nat, plan: Plan, clock: Clock, id: nat, name: string, initial: int)
    requires Valid(db) && Good(db, id, name, initial) && InRange(plan) && (other == id ==> plan.kind == Vendor)
    ensures var b := GeneratedFor(db, other, plan, clock); Valid(b) && Good(b, id, name, initial) && b.defs == db.defs
  {
    var dates := Written(Window(plan, clock.today, clock.lookahead), clock.rowsFail);
    GeneratedFollows(db, other, dates);
    if other != id {
      OtherKeepsGood(db, Generated(db, other, dates), other, id, name, initial);
    } else {
      VendorHasNoDates(plan, clock);
    }
  }

  lemma VendorHasNoDates(plan: Plan, clock: Clock)
    requires plan.kind == Vendor && InRange(plan)
    ensures Written(Window(plan, clock.today, clock.lookahead), clock.rowsFail) == []
  {}

  lemma {:induction false} TickKeepsGood(db: Db, listed: seq<Held>, clocks: nat -> Clock, id: nat, name: string,
                                         initial: int)
    requires Valid(db) && Good(db, id, name, initial) && IsTickListing(db, listed)
    ensures var b := Ticked(db, listed, clocks); Valid(b) && Good(b, id, name, initial)
    decreases |listed|
  {
    if listed == [] {
    } else {
      var n := |listed| - 1;
      TickKeepsGood(db, listed[..n], clocks, id, name, initial);
      GenerateKeepsGood(Ticked(db, listed[..n], clocks), listed[n].id, listed[n].def.plan, clocks(n), id, name,
                        initial);
    }
  }

  lemma AddKeepsGood(db: Db, form: Form, clock: Clock, id: nat, name: string, initial: int)
    requires Valid(db) && Good(db, id, name, initial)
    ensures Valid(BillAdded(db, form, clock)) && Good(BillAdded(db, form, clock), id, name, initial)
  {
    if FromForm(form).Some? {
      FormMeetsCheck(form);
      var def := FromForm(form).value;
      CreateKeepsValid(db, def);
      QuietKeepsGood(db, Created(db, def), id, name, initial);
      GenerateKeepsGood(Created(db, def), db.nextDef, def.plan, clock, id, name, initial);
    }
  }

  lemma EditKeepsGood(db: Db, other: nat, form: Form, clock: Clock, id: nat, name: string, initial: int)
    requires Valid(db) && Good(db, id, name, initial)
    ensures Valid(BillUpdated(db, other, form, clock)) && Good(BillUpdated(db, other, form, clock), id, name, initial)
  {
    if other in db.defs && !db.defs[other].managed && FromForm(form).Some? {
      FormMeetsCheck(form);
      var def := FromForm(form).value;
      UpdateKeepsValid(db, other, def);
      QuietKeepsGood(db, Updated(db, other, def), id, name, initial);
      GenerateKeepsGood(Updated(db, other, def), other, def.plan, clock, id, name, initial);
    }
  }

  lemma DropKeepsGood(db: Db, other: nat, id: nat, name: string, initial: int)
    requires Valid(db) && Good(db, id, name, initial)
    ensures Valid(BillDeleted(db, other)) && Good(BillDeleted(db, other), id, name, initial)
  {
    DeleteKeepsValid(db, other);
    if other in db.defs && !db.defs[other].managed {
      QuietKeepsGood(db, Deleted(db, other), id, name, initial);
    }
  }

  lemma PayKeepsGood(db: Db, instance: nat, id: nat, name: string, initial: int)
    requires Valid(db) && Good(db, id, name, initial)
    ensures Valid(Paid(db, instance)) && Good(Paid(db, instance), id, name, initial)
  {
    PaidKeepsValid(db, instance);
    QuietKeepsGood(db, Paid(db, instance), id, name, initial);
  }

  lemma EventKeepsGood(db: Db, event: Event, id: nat, name: string, initial: int)
    requires Valid(db) && Good(db, id, name, initial) && CanHappen(db, event, name)
    ensures Valid(Happened(db, event, name)) && Good(Happened(db, event, name), id, name, initial)
  {
    match event
    case Restart(entries, env) =>
      ReconcileKeepsUi(db, entries, env);
      RestartKeepsGood(db, entries, env, id, name, initial);
    case Pass(rows, answers) => PassKeepsGood(db, rows, answers, rows, id, name, initial);
    case Tick(listed, clocks) => TickKeepsGood(db, listed, clocks, id, name, initial);
    case Add(form, clock) => AddKeepsGood(db, form, clock, id, name, initial);
    case Edit(other, form, clock) => EditKeepsGood(db, other, form, clock, id, name, initial);
    case Drop(other) => DropKeepsGood(db, other, id, name, initial);
    case Pay(instance) => PayKeepsGood(db, instance, id, name, initial);
  }

  /** The states of a run, each following from the one before by an event that can happen. */
  ghost predicate IsRun(states: seq<Db>, events: seq<Event>, name: string) {
    && |states| == |events| + 1
    && (forall k :: 0 <= k < |events| ==>
          Valid(states[k]) && CanHappen(states[k], events[k], name)
          && states[k + 1] == Happened(states[k], events[k], name))
  }

  /**
   Last known good amount. In any run of restarts whose file keeps the bill a
   connector entry, refresh passes, ticks, settings actions and payments, with
   vendors answering or failing as they please: the bill's amount is that of
   the last successful answer, or the one it had at first if there was none,
   and each of its instances has the due date of an answer with something owed.
   */
  lemma {:induction false} LastKnownGoodAmount(states: seq<Db>, events: seq<Event>, k: nat, id: nat, name: string,
                                               initial: int)
    requires IsRun(states, events, name) && k < |states| && Good(states[0], id, name, initial)
    ensures Good(states[k], id, name, initial)
    decreases k
  {
    if k == 0 {
    } else {
      LastKnownGoodAmount(states, events, k - 1, id, name, initial);
      EventKeepsGood(states[k - 1], events[k - 1], id, name, initial);
      assert states[(k - 1) + 1] == Happened(states[k - 1], events[k - 1], name);
    }
  }

  // ----- the restart that creates the bill -----

  lemma CreationIsGood(db: Db, e: Entry)
    requires Valid(db) && FromEntry(e).Some? && e.connector != "" && FitsInteger(e.amountCents)
    ensures Good(Created(db, FromEntry(e).value.(managed := true)), db.nextDef, e.name, e.amountCents)
  {
    EntryMeetsCheck(e);
    OthersDoNotCount([], db.reports, db.nextDef, e.amountCents);
  }

  /** An entry whose name is free creates the bill, unless a store call fails or the amount does not fit. */
  lemma EntryCreatesGood(db: Db, e: Entry, i: nat, env: Env)
    requires Valid(db) && EnvWorks(env) && FromEntry(e).Some? && e.connector != "" && Free(db, e.name)
    ensures var b := EntryDone(db, e, i, env);
            if env.ok(i, Lookup) && env.ok(i, Insert) && FitsInteger(e.amountCents)
            then Good(b, db.nextDef, e.name, e.amountCents)
            else Free(b, e.name)
  {
    EntryMeetsCheck(e);
    assert Named(db, e.name) == {};
    var def := FromEntry(e).value.(managed := true);
    if FitsInteger(e.amountCents) {
      CreationIsGood(db, e);
      CreateKeepsValid(db, def);
      AttachKeepsGood(Created(db, def), db.nextDef, e, i, env, db.nextDef, e.name, e.amountCents);
    }
  }

  lemma EntryKeepsFree(db: Db, e: Entry, i: nat, env: Env, name: string)
    requires Valid(db) && IsChooser(env.pick) && !IsValidNamed(e, name) && Free(db, name)
    ensures Free(EntryDone(db, e, i, env), name)
  {
    var b := EntryDone(db, e, i, env);
    var touched := EntryOnManaged(db, e, i, env);
    OnManagedKeepsUi(db, b, touched);
    EntryKeepsNames(db, e, i, env, name);
    UiNameStays(db, b, name);
    FreeIff(db, name);
    FreeIff(b, name);
  }

  ghost predicate IsFirst(entries: seq<Entry>, k: nat, name: string) {
    k < |entries| && IsValidNamed(entries[k], name) && forall j :: 0 <= j < k ==> !IsValidNamed(entries[j], name)
  }

  /** The bill stands as the entry at `from` created it. */
  ghost predicate StartedBy(db: Db, id: nat, entries: seq<Entry>, from: nat, name: string) {
    from < |entries| && IsValidNamed(entries[from], name) && Good(db, id, name, entries[from].amountCents)
  }

  ghost predicate FreeOrStartedBy(db: Db, id: nat, file: seq<Entry>, from: nat, name: string) {
    Free(db, name) || StartedBy(db, id, file, from, name)
  }

  lemma StartedStays(db: Db, file: seq<Entry>, n: nat, env: Env, name: string, id: nat, from: nat)
    requires Valid(db) && EnvWorks(env) && n < |file| && OnlyConnectors(file, name)
    requires StartedBy(db, id, file, from, name)
    ensures StartedBy(EntryDone(db, file[n], n, env), id, file, from, name)
  {
    EntryKeepsGood(db, file[n], n, env, id, name, file[from].amountCents);
  }

  lemma FreeOrStarted(db: Db, file: seq<Entry>, n: nat, env: Env, name: string)
    requires Valid(db) && EnvWorks(env) && n < |file| && OnlyConnectors(file, name) && Free(db, name)
    ensures Free(EntryDone(db, file[n], n, env), name)
            || StartedBy(EntryDone(db, file[n], n, env), db.nextDef, file, n, name)
    ensures !IsValidNamed(file[n], name) ==> Free(EntryDone(db, file[n], n, env), name)
    ensures Calm(env) && Fits(file) && IsValidNamed(file[n], name) ==>
              StartedBy(EntryDone(db, file[n], n, env), db.nextDef, file, n, name)
  {
    if IsValidNamed(file[n], name) {
      EntryCreatesGood(db, file[n], n, env);
    } else {
      EntryKeepsFree(db, file[n], n, env, name);
    }
  }

  lemma NextCreatesGood(db: Db, file: seq<Entry>, n: nat, env: Env, name: string, id0: nat, from0: nat)
    returns (id: nat, from: nat)
    requires Valid(db) && EnvWorks(env) && n < |file| && OnlyConnectors(file, name)
    requires FreeOrStartedBy(db, id0, file, from0, name)
    ensures FreeOrStartedBy(EntryDone(db, file[n], n, env), id, file, from, name)
  {
    if Free(db, name) {
      FreeOrStarted(db, file, n, env, name);
      id, from := db.nextDef, n;
    } else {
      StartedStays(db, file, n, env, name, id0, from0);
      id, from := id0, from0;
    }
  }

  lemma DoneKeepsValid(db: Db, file: seq<Entry>, n: nat, env: Env)
    requires Valid(db) && IsChooser(env.pick) && n <= |file|
    ensures Valid(EntriesDone(db, file[..n], env))
  {
    EntriesKeepUi(db, file[..n], env);
  }

  lemma DoneNext(db: Db, file: seq<Entry>, n: nat, env: Env)
    requires n < |file| && IsChooser(env.pick)
    ensures EntriesDone(db, file[..n + 1], env) == EntryDone(EntriesDone(db, file[..n], env), file[n], n, env)
  {
    assert file[..n + 1][..n] == file[..n];
  }

  lemma {:induction false} EntriesCreateGood(db: Db, file: seq<Entry>, n: nat, env: Env, name: string)
    returns (id: nat, from: nat)
    requires Valid(db) && EnvWorks(env) && Free(db, name) && OnlyConnectors(file, name) && n <= |file|
    ensures FreeOrStartedBy(EntriesDone(db, file[..n], env), id, file, from, name)
    decreases n
  {
    id, from := 0, 0;
    if n == 0 {
    } else {
      var mid := EntriesDone(db, file[..n - 1], env);
      id, from := EntriesCreateGood(db, file, n - 1, env, name);
      DoneKeepsValid(db, file, n - 1, env);
      DoneNext(db, file, n - 1, env);
      id, from := NextCreatesGood(mid, file, n - 1, env, name, id, from);
    }
  }

  lemma NextFromFirst(db: Db, file: seq<Entry>, first: nat, n: nat, env: Env, name: string, id0: nat) returns (id: nat)
    requires Valid(db) && EnvWorks(env) && OnlyConnectors(file, name) && n < |file|
    requires Calm(env) && Fits(file) && IsFirst(file, first, name)
    requires if n <= first then Free(db, name) else StartedBy(db, id0, file, first, name)
    ensures if n < first then Free(EntryDone(db, file[n], n, env), name)
            else StartedBy(EntryDone(db, file[n], n, env), id, file, first, name)
  {
    if n <= first {
      FreeOrStarted(db, file, n, env, name);
      id := db.nextDef;
    } else {
      StartedStays(db, file, n, env, name, id0, first);
      id := id0;
    }
  }

  /** Without store failures it is the first entry of the name. */
  lemma {:induction false} FirstCreatesGood(db: Db, file: seq<Entry>, first: nat, n: nat, env: Env, name: string)
    returns (id: nat)
    requires Valid(db) && EnvWorks(env) && Free(db, name) && OnlyConnectors(file, name) && n <= |file|
    requires Calm(env) && Fits(file) && IsFirst(file, first, name)
    ensures var done := EntriesDone(db, file[..n], env);
            if n <= first then Free(done, name) else StartedBy(done, id, file, first, name)
    decreases n
  {
    id := 0;
    if n == 0 {
    } else {
      var mid := EntriesDone(db, file[..n - 1], env);
      id := FirstCreatesGood(db, file, first, n - 1, env, name);
      DoneKeepsValid(db, file, n - 1, env);
      DoneNext(db, file, n - 1, env);
      id := NextFromFirst(mid, file, first, n - 1, env, name, id);
    }
  }

  lemma {:induction false} FirstExists(entries: seq<Entry>, name: string) returns (first: nat)
    requires Seen(entries, name)
    ensures IsFirst(entries, first, name)
    decreases |entries|
  {
    var n := |entries| - 1;
    SeenPrefix(entries, name);
    if Seen(entries[..n], name) {
      first := FirstExists(entries[..n], name);
      assert forall k :: 0 <= k < n ==> entries[..n][k] == entries[k];
    } else {
      first := n;
      assert forall k :: 0 <= k < n ==> entries[..n][k] == entries[k];
    }
  }

  /**
   A restart whose file has a free name, as a connector only, leaves the name
   free or the bill good with the amount of an entry of that name; if no store
   call fails, good with the amount of the first such entry.
   */
  lemma RestartCreatesGood(db: Db, entries: seq<Entry>, env: Env, name: string) returns (id: nat, from: nat)
    requires Valid(db) && EnvWorks(env) && Free(db, name) && StaysConnector(entries, name)
    ensures Free(Reconciled(db, entries, env), name) || StartedBy(Reconciled(db, entries, env), id, entries, from, name)
    ensures Calm(env) && Fits(entries) ==>
              IsFirst(entries, from, name) && StartedBy(Reconciled(db, entries, env), id, entries, from, name)
  {
    assert entries[..|entries|] == entries;
    if Calm(env) && Fits(entries) {
      from := FirstExists(entries, name);
      id := FirstCreatesGood(db, entries, from, |entries|, env, name);
    } else {
      id, from := EntriesCreateGood(db, entries, |entries|, env, name);
    }
    var done := EntriesDone(db, entries, env);
    var ids := Doomed(done, entries, env);
    if !Free(done, name) {
      assert id !in ids;
      QuietKeepsGood(done, Removed(done, ids), id, name, entries[from].amountCents);
    }
  }

  /** So a run that begins with the restart that creates the bill has the property from there on. */
  lemma LastKnownFromCreation(states: seq<Db>, events: seq<Event>, name: string) returns (id: nat, from: nat)
    requires IsRun(states, events, name) && events != [] && events[0].Restart? && Free(states[0], name)
    requires Calm(events[0].env) && Fits(events[0].entries)
    ensures IsFirst(events[0].entries, from, name)
    ensures forall k :: 1 <= k < |states| ==> Good(states[k], id, name, events[0].entries[from].amountCents)
  {
    id, from := RestartCreatesGood(states[0], events[0].entries, events[0].env, name);
    var initial := events[0].entries[from].amountCents;
    assert states[0 + 1] == Happened(states[0], events[0], name);
    forall k | 0 <= k < |events| - 1
      ensures var a := states[1..]; var b := events[1..];
              Valid(a[k]) && CanHappen(a[k], b[k], name) && a[k + 1] == Happened(a[k], b[k], name)
    {
      assert states[1..][k + 1] == states[(k + 1) + 1] && events[1..][k] == events[k + 1];
    }
    forall k | 1 <= k < |states|
      ensures Good(states[k], id, name, initial)
    {
      LastKnownGoodAmount(states[1..], events[1..], k - 1, id, name, initial);
      assert states[1..][k - 1] == states[k];
    }
  }
}
