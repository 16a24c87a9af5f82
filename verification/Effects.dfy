/**
 What each store call and handler does, as its caller sees it: which rows and
 columns change, what is found afterwards, and that everything else is the same.
 These are relations between the tables before and after; the lemmas show that
 the functions of `Ledger`, `Refresh` and `Handlers` meet them.
 */
module Effects {
  import opened Basics
  import opened Civil
  import opened Schedule
  import opened Ledger
  import opened World
  import opened Entries
  import opened Refresh
  import opened Handlers
  import opened Footprint
  import opened LastKnown
  import Leftover

  // ----- store calls -----

  /** Nothing in the tables has ever been about this definition. */
  ghost predicate IsNew(db: Db, id: nat) {
    && id !in db.defs
    && (forall i :: i in db.instances ==> db.instances[i].definition != id)
    && (forall c :: c in db.conns ==> db.conns[c].definition != id)
    && (forall k :: 0 <= k < |db.reports| ==> db.reports[k].definition != id)
  }

  /** Only rows of the definition table differ. */
  ghost predicate OnlyDefs(a: Db, b: Db) {
    b.instances == a.instances && b.conns == a.conns && b.reports == a.reports
  }

  ghost predicate CreateEffect(a: Db, b: Db, def: Definition, id: Option<nat>) {
    && Valid(b) && OnlyDefs(a, b)
    && (id.Some? <==> Storable(def))
    && (if id.Some? then IsNew(a, id.value) && b.defs == a.defs[id.value := def] else b.defs == a.defs)
  }

  lemma CreateDoes(db: Db, def: Definition)
    requires Valid(db)
    ensures CreateEffect(db, Created(db, def), def, if Storable(def) then Some(db.nextDef) else None)
  {
    CreateKeepsValid(db, def);
  }

  /**
   One definition is overwritten, its managed flag and possibly its name kept; a
   row that is missing stays missing.
   */
  ghost predicate EditEffect(a: Db, b: Db, id: nat, def: Definition, renames: bool) {
    && Valid(b) && OnlyDefs(a, b) && b.defs.Keys == a.defs.Keys && b.nextDef == a.nextDef
    && (forall d :: d in a.defs && (d != id || !Storable(def)) ==> b.defs[d] == a.defs[d])
    && (id in a.defs && Storable(def) ==>
          && b.defs[id].managed == a.defs[id].managed
          && b.defs[id].name == (if renames then def.name else a.defs[id].name)
          && b.defs[id].amountCents == def.amountCents
          && b.defs[id].plan == def.plan && b.defs[id].vendorURL == def.vendorURL)
  }

  lemma SettingsEditDoes(db: Db, id: nat, def: Definition)
    requires Valid(db)
    ensures EditEffect(db, Updated(db, id, def), id, def, true)
  {
    assert Valid(Updated(db, id, def)) by {
      UpdateKeepsValid(db, id, def);
    }
  }

  lemma FileEditDoes(db: Db, id: nat, def: Definition)
    requires Valid(db)
    ensures EditEffect(db, UpdatedBootstrap(db, id, def), id, def, false)
  {
    assert Valid(UpdatedBootstrap(db, id, def)) by {
      UpdateKeepsValid(db, id, def);
    }
  }

  /** Only the amount of one definition may differ: it is the new one if that fits its column. */
  ghost predicate PriceEffect(a: Db, b: Db, id: nat, amountCents: int) {
    && Valid(b) && OnlyDefs(a, b) && b.defs.Keys == a.defs.Keys
    && (forall d :: d in a.defs ==>
          b.defs[d] == if d == id && FitsInteger(amountCents) then a.defs[d].(amountCents := amountCents)
                       else a.defs[d])
  }

  lemma PriceDoes(db: Db, id: nat, amountCents: int)
    requires Valid(db)
    ensures PriceEffect(db, Repriced(db, id, amountCents), id, amountCents)
  {
    RepriceKeepsValid(db, id, amountCents);
  }

  /** Nothing of the definition is left, and everything of the others is. */
  ghost predicate DeleteEffect(a: Db, b: Db, id: nat) {
    && Valid(b) && OnlyTouches(a, b, id) && b.reports == a.reports
    && id !in b.defs && !HasConn(b, id) && (forall due :: !HasRow(b, id, due))
  }

  lemma DeleteDoes(db: Db, id: nat)
    requires Valid(db)
    ensures DeleteEffect(db, Deleted(db, id), id)
  {
    DeleteKeepsValid(db, id);
  }

  /**
   The pair is there afterwards, and no other that was not; rows that were there
   are the same, paid or not; a new row is unpaid.
   */
  ghost predicate EnsureEffect(a: Db, b: Db, id: nat, due: Date) {
    && Valid(b) && b.defs == a.defs && b.conns == a.conns && b.reports == a.reports && RowsStay(a, b)
    && (forall d, day :: HasRow(b, d, day) <==> HasRow(a, d, day) || (id in a.defs && d == id && day == due))
    && (forall i :: i in b.instances && i !in a.instances ==> !b.instances[i].paid)
  }

  lemma EnsureDoes(db: Db, id: nat, due: Date)
    requires Valid(db)
    ensures EnsureEffect(db, Ensured(db, id, due), id, due)
  {
    EnsuredFollows(db, id, due);
    var b := Ensured(db, id, due);
    forall d, day
      ensures HasRow(b, d, day) <==> HasRow(db, d, day) || (id in db.defs && d == id && day == due)
    {
      EnsuredRows(db, id, due, d, day);
    }
  }

  lemma EnsuredRows(db: Db, id: nat, due: Date, d: nat, day: Date)
    requires Valid(db)
    ensures HasRow(Ensured(db, id, due), d, day) <==> HasRow(db, d, day) || (id in db.defs && d == id && day == due)
  {
    var b := Ensured(db, id, due);
    if HasRow(db, d, day) {
      EnsuredFollows(db, id, due);
      RowStays(db, b, d, day);
    } else if id in db.defs && d == id && day == due {
      EnsuredHasRow(db, id, due);
    }
  }

  /** One row is paid; on every list of unpaid bills that row is missing, and no other. */
  ghost predicate PayEffect(a: Db, b: Db, i: nat) {
    && Valid(b) && b.defs == a.defs && b.conns == a.conns && b.reports == a.reports
    && b.instances.Keys == a.instances.Keys
    && (forall j :: j in a.instances ==> b.instances[j] == a.instances[j].(paid := a.instances[j].paid || j == i))
    && (forall to :: UpcomingUnpaid(b, to) == UpcomingUnpaid(a, to) - {i})
  }

  lemma PayDoes(db: Db, i: nat)
    requires Valid(db)
    ensures PayEffect(db, Paid(db, i), i)
  {
    PaidKeepsValid(db, i);
  }

  /**
   The bill, if it exists, has its one connection with this login; connections
   that were there keep their id and sync history; a new one has none.
   */
  ghost predicate UpsertEffect(a: Db, b: Db, id: nat, login: Login) {
    && Valid(b) && b.defs == a.defs && b.instances == a.instances && b.reports == a.reports && OnlyTouches(a, b, id)
    && (forall d :: HasConn(b, d) <==> HasConn(a, d) || (d == id && id in a.defs))
    && (forall c :: c in a.conns ==>
          c in b.conns && b.conns[c] == a.conns[c].(login := b.conns[c].login, managed := b.conns[c].managed))
    && (forall c :: c in b.conns && b.conns[c].definition == id ==> b.conns[c].login == login && b.conns[c].managed)
    && (forall c :: c in b.conns && c !in a.conns ==>
          b.conns[c].syncedAt == None && b.conns[c].syncError == None && b.conns[c].account == None)
  }

  lemma UpsertDoes(db: Db, id: nat, login: Login)
    requires Valid(db)
    ensures UpsertEffect(db, Upserted(db, id, login), id, login)
  {
    UpsertedFollows(db, id, login);
    UpsertKeepsReports(db, id, login);
    forall d
      ensures HasConn(Upserted(db, id, login), d) <==> HasConn(db, d) || (d == id && id in db.defs)
    {
      UpsertedConns(db, id, login, d);
    }
    UpsertedLogins(db, id, login);
  }

  lemma UpsertedConns(db: Db, id: nat, login: Login, d: nat)
    requires Valid(db)
    ensures HasConn(Upserted(db, id, login), d) <==> HasConn(db, d) || (d == id && id in db.defs)
  {
    var b := Upserted(db, id, login);
    UpsertedFollows(db, id, login);
    if HasConn(db, d) {
      var c :| c in db.conns && db.conns[c].definition == d;
      assert c in b.conns && b.conns[c].definition == d;
    }
  }

  lemma UpsertedLogins(db: Db, id: nat, login: Login)
    requires Valid(db)
    ensures var b := Upserted(db, id, login);
            && (forall c :: c in db.conns ==>
                  c in b.conns && b.conns[c] == db.conns[c].(login := b.conns[c].login, managed := b.conns[c].managed))
            && (forall c :: c in b.conns && b.conns[c].definition == id ==>
                  b.conns[c].login == login && b.conns[c].managed)
            && (forall c :: c in b.conns && c !in db.conns ==>
                  b.conns[c].syncedAt == None && b.conns[c].syncError == None && b.conns[c].account == None)
  {}

  /**
   One connection is fresh for as long as the interval lasts from now on, shows
   this error, and keeps its account number when none is given.
   */
  ghost predicate SyncEffect(a: Db, b: Db, conn: nat, now: int, account: string, error: Option<string>) {
    && Valid(b) && b.defs == a.defs && b.instances == a.instances && b.reports == a.reports
    && b.conns.Keys == a.conns.Keys
    && (forall c :: c in a.conns && c != conn ==> b.conns[c] == a.conns[c])
    && (conn in a.conns ==>
          var before, row := a.conns[conn], b.conns[conn];
          && (forall t, interval :: Fresh(row.syncedAt, t, interval) <==> t < now + interval)
          && row.syncError == error && row.login == before.login
          && row.definition == before.definition && row.managed == before.managed
          && (account == "" ==> row.account == before.account) && (account != "" ==> row.account == Some(account)))
  }

  lemma SyncDoes(db: Db, conn: nat, now: int, account: string, error: Option<string>)
    requires Valid(db)
    ensures SyncEffect(db, Synced(db, conn, now, account, error), conn, now, account, error)
  {
    SyncedKeepsValid(db, conn, now, account, error);
  }

  // ----- generation -----

  /** Rows that are new are unpaid due dates of the plan in the window. */
  ghost predicate NewRowsAreDue(a: Db, b: Db, id: nat, plan: Plan, clock: Clock) {
    forall i :: i in b.instances && i !in a.instances ==>
      IsNewDue(b.instances[i], id, plan, clock)
  }

  predicate IsNewDue(r: Instance, id: nat, plan: Plan, clock: Clock) {
    && r.definition == id && !r.paid
    && IsDue(plan, r.due) && clock.today <= Ordinal(r.due) <= clock.today + clock.lookahead
  }

  /**
   The whole window is there unless an insert fails; nothing is added but due
   dates of the window, nothing else changes.
   */
  ghost predicate GenerateEffect(a: Db, b: Db, id: nat, plan: Plan, clock: Clock)
    requires InRange(plan)
  {
    && Valid(b) && b.defs == a.defs && b.conns == a.conns && b.reports == a.reports && b.nextDef == a.nextDef
    && RowsStay(a, b) && NewRowsAreDue(a, b, id, plan, clock)
    && (clock.rowsFail.None? && id in a.defs ==> HasWindow(b, id, plan, clock.today, clock.lookahead))
  }

  lemma EnsuredRowIsNew(db: Db, id: nat, due: Date)
    requires InstancesValid(db)
    ensures var b := Ensured(db, id, due);
            forall i :: i in b.instances ==>
              if i in db.instances then b.instances[i] == db.instances[i]
              else b.instances[i] == Instance(id, due, false)
  {}

  lemma {:induction false} GeneratedRowsAreNew(db: Db, id: nat, dates: seq<Date>)
    requires Valid(db)
    ensures var b := Generated(db, id, dates);
            forall i :: i in b.instances && i !in db.instances ==>
              b.instances[i].definition == id && !b.instances[i].paid && b.instances[i].due in dates
    decreases |dates|
  {
    if dates == [] {
    } else {
      var init, last := dates[..|dates| - 1], dates[|dates| - 1];
      GeneratedRowsAreNew(db, id, init);
      assert InstancesValid(Generated(db, id, init)) by {
        GeneratedFollows(db, id, init);
      }
      EnsuredRowIsNew(Generated(db, id, init), id, last);
      assert forall d: Date :: d in init ==> d in dates;
      assert last in dates;
    }
  }

  lemma WrittenIsInWindow(plan: Plan, clock: Clock, d: Date)
    requires InRange(plan) && d in Written(Window(plan, clock.today, clock.lookahead), clock.rowsFail)
    ensures IsDue(plan, d) && clock.today <= Ordinal(d) <= clock.today + clock.lookahead
  {
    assert d in Window(plan, clock.today, clock.lookahead);
    WindowIsExact(plan, clock.today, clock.lookahead, d);
  }

  lemma GenerateDoes(db: Db, id: nat, plan: Plan, clock: Clock)
    requires Valid(db) && InRange(plan)
    ensures GenerateEffect(db, GeneratedFor(db, id, plan, clock), id, plan, clock)
  {
    var dates := Written(Window(plan, clock.today, clock.lookahead), clock.rowsFail);
    var b := GeneratedFor(db, id, plan, clock);
    GeneratedFollows(db, id, dates);
    GeneratedRowsAreNew(db, id, dates);
    forall i | i in b.instances && i !in db.instances
      ensures IsNewDue(b.instances[i], id, plan, clock)
    {
      WrittenIsInWindow(plan, clock, b.instances[i].due);
    }
  }

  // ----- a tick -----

  predicate InRangeAll(listed: seq<Held>) {
    forall k :: 0 <= k < |listed| ==> InRange(listed[k].def.plan)
  }

  /** Every listed bill has its window, whatever fails for the others; nothing is added but due dates. */
  ghost predicate TickEffect(a: Db, b: Db, listed: seq<Held>, clocks: nat -> Clock)
    requires InRangeAll(listed)
  {
    && Valid(b) && b.defs == a.defs && b.conns == a.conns && RowsStay(a, b)
    && AllWindows(a, b, listed, clocks) && AllAreDue(a, b, listed, clocks)
  }

  ghost predicate AllWindows(a: Db, b: Db, listed: seq<Held>, clocks: nat -> Clock)
    requires InRangeAll(listed)
  {
    forall k :: 0 <= k < |listed| ==> HasItsWindow(a, b, listed[k], clocks(k))
  }

  ghost predicate HasItsWindow(a: Db, b: Db, h: Held, clock: Clock)
    requires InRange(h.def.plan)
  {
    clock.rowsFail.None? && h.id in a.defs ==> HasWindow(b, h.id, h.def.plan, clock.today, clock.lookahead)
  }

  ghost predicate AllAreDue(a: Db, b: Db, listed: seq<Held>, clocks: nat -> Clock) {
    forall i :: i in b.instances && i !in a.instances ==> IsListedDue(b.instances[i], listed, clocks)
  }

  ghost predicate IsListedDue(r: Instance, listed: seq<Held>, clocks: nat -> Clock) {
    exists k :: 0 <= k < |listed| && IsNewDue(r, listed[k].id, listed[k].def.plan, clocks(k))
  }

  lemma {:induction false} TickDoes(db: Db, listed: seq<Held>, clocks: nat -> Clock)
    requires Valid(db) && InRangeAll(listed)
    ensures TickEffect(db, Ticked(db, listed, clocks), listed, clocks)
    decreases |listed|
  {
    if listed == [] {
    } else {
      var n := |listed| - 1;
      var mid := Ticked(db, listed[..n], clocks);
      TickDoes(db, listed[..n], clocks);
      GenerateDoes(mid, listed[n].id, listed[n].def.plan, clocks(n));
      NextTick(db, mid, Ticked(db, listed, clocks), listed, clocks);
    }
  }

  lemma NextTick(a: Db, b: Db, c: Db, listed: seq<Held>, clocks: nat -> Clock)
    requires listed != [] && InRangeAll(listed)
    requires TickEffect(a, b, listed[..|listed| - 1], clocks)
    requires var n := |listed| - 1; GenerateEffect(b, c, listed[n].id, listed[n].def.plan, clocks(n))
    ensures TickEffect(a, c, listed, clocks)
  {
    NextWindows(a, b, c, listed, clocks);
    NextAreDue(a, b, c, listed, clocks);
  }

  lemma NextWindows(a: Db, b: Db, c: Db, listed: seq<Held>, clocks: nat -> Clock)
    requires listed != [] && InRangeAll(listed) && RowsStay(b, c) && AllWindows(a, b, listed[..|listed| - 1], clocks)
    requires HasItsWindow(a, c, listed[|listed| - 1], clocks(|listed| - 1))
    ensures AllWindows(a, c, listed, clocks)
  {
    var init := listed[..|listed| - 1];
    forall k | 0 <= k < |init|
      ensures HasItsWindow(a, c, init[k], clocks(k))
    {
      KeepsItsWindow(a, b, c, init[k], clocks(k));
    }
    OneMoreWindow(a, c, listed, clocks);
  }

  lemma OneMoreWindow(a: Db, b: Db, listed: seq<Held>, clocks: nat -> Clock)
    requires listed != [] && InRangeAll(listed) && AllWindows(a, b, listed[..|listed| - 1], clocks)
    requires HasItsWindow(a, b, listed[|listed| - 1], clocks(|listed| - 1))
    ensures AllWindows(a, b, listed, clocks)
  {
    forall k | 0 <= k < |listed| - 1
      ensures HasItsWindow(a, b, listed[k], clocks(k))
    {
      assert listed[..|listed| - 1][k] == listed[k];
    }
  }

  lemma KeepsItsWindow(a: Db, b: Db, c: Db, h: Held, clock: Clock)
    requires InRange(h.def.plan) && RowsStay(b, c) && HasItsWindow(a, b, h, clock)
    ensures HasItsWindow(a, c, h, clock)
  {
    if clock.rowsFail.None? && h.id in a.defs {
      LaterHasWindow(b, c, h.id, h.def.plan, clock.today, clock.lookahead);
    }
  }

  lemma NextAreDue(a: Db, b: Db, c: Db, listed: seq<Held>, clocks: nat -> Clock)
    requires listed != [] && RowsStay(b, c) && AllAreDue(a, b, listed[..|listed| - 1], clocks)
    requires var h := listed[|listed| - 1]; NewRowsAreDue(b, c, h.id, h.def.plan, clocks(|listed| - 1))
    ensures AllAreDue(a, c, listed, clocks)
  {
    var n := |listed| - 1;
    forall i | i in c.instances && i !in a.instances
      ensures IsListedDue(c.instances[i], listed, clocks)
    {
      if i in b.instances {
        EarlierListedDue(b.instances[i], listed, clocks);
      } else {
        assert IsNewDue(c.instances[i], listed[n].id, listed[n].def.plan, clocks(n));
      }
    }
  }

  lemma EarlierListedDue(r: Instance, listed: seq<Held>, clocks: nat -> Clock)
    requires listed != [] && IsListedDue(r, listed[..|listed| - 1], clocks)
    ensures IsListedDue(r, listed, clocks)
  {
    var init := listed[..|listed| - 1];
    var k :| 0 <= k < |init| && IsNewDue(r, init[k].id, init[k].def.plan, clocks(k));
    assert IsNewDue(r, listed[k].id, listed[k].def.plan, clocks(k));
  }

  lemma LaterHasWindow(a: Db, b: Db, id: nat, plan: Plan, today: int, lookahead: int)
    requires InRange(plan) && RowsStay(a, b) && HasWindow(a, id, plan, today, lookahead)
    ensures HasWindow(b, id, plan, today, lookahead)
  {
    forall d: Date | d in Window(plan, today, lookahead)
      ensures HasRow(b, id, d)
    {
      RowStays(a, b, id, d);
    }
  }

  // ----- a refresh -----

  /** The error a refresh leaves on its connection. */
  function ErrorOf(answer: Fetched): Option<string> {
    if answer.Failed? then Some(answer.reason) else None
  }

  /** The account number it leaves: the one reported, or the one before where none is. */
  function NumberOf(answer: Fetched, before: Option<string>): Option<string> {
    if answer.Snapshot? && answer.account != "" then Some(answer.account) else before
  }

  /** A stamped row: time of the call, error, account number; login, bill and managed flag as before. */
  predicate IsStamped(before: Connection, row: Connection, answer: Fetched, now: int) {
    && row.syncedAt == Some(now) && row.syncError == ErrorOf(answer) && row.account == NumberOf(answer, before.account)
    && row.login == before.login && row.definition == before.definition && row.managed == before.managed
  }

  /**
   Of the bill only the amount may change, to the one reported; no other
   definition changes, and none on a failure.
   */
  ghost predicate AmountTaken(a: Db, b: Db, id: nat, answer: Fetched, health: Health) {
    && b.defs.Keys == a.defs.Keys
    && (forall d :: d in a.defs ==> b.defs[d] == if d == id then Taken(a.defs[d], answer, health) else a.defs[d])
  }

  function Taken(def: Definition, answer: Fetched, health: Health): Definition {
    if Leftover.Writes(answer, health) then def.(amountCents := answer.amountCents) else def
  }

  /** Rows stay; a due date has one afterwards exactly if it had one or it is the reported date of something owed. */
  ghost predicate DueDatePlaced(a: Db, b: Db, id: nat, answer: Fetched, health: Health) {
    && RowsStay(a, b)
    && forall d, day :: HasRow(b, d, day) <==>
         HasRow(a, d, day) || (id in a.defs && d == id && Places(answer, health, day))
  }

  predicate Places(answer: Fetched, health: Health, day: Date) {
    answer.Snapshot? && health.place && answer.amountCents > 0 && day == answer.due
  }

  /** The connection is stamped, whether the fetch failed or not; no other changes. */
  ghost predicate ConnStamped(a: Db, b: Db, conn: nat, answer: Fetched, now: int, health: Health) {
    && b.conns.Keys == a.conns.Keys && (forall c :: c in a.conns && c != conn ==> b.conns[c] == a.conns[c])
    && (conn in a.conns ==>
          if health.stamp then IsStamped(a.conns[conn], b.conns[conn], answer, now) else b.conns[conn] == a.conns[conn])
  }

  ghost predicate RefreshEffect(a: Db, b: Db, conn: nat, id: nat, answer: Fetched, now: int, health: Health) {
    && Valid(b) && AmountTaken(a, b, id, answer, health) && DueDatePlaced(a, b, id, answer, health)
    && ConnStamped(a, b, conn, answer, now, health)
  }

  lemma TakesAmount(db: Db, conn: nat, id: nat, answer: Fetched, now: int, health: Health)
    ensures AmountTaken(db, RefreshedNow(db, conn, id, answer, now, health), id, answer, health)
  {
    if answer.Snapshot? {
      Leftover.RecordedOnBill(db, Report(id, answer.amountCents, answer.due), health);
    }
  }

  lemma StampsConn(db: Db, conn: nat, id: nat, answer: Fetched, now: int, health: Health)
    ensures ConnStamped(db, RefreshedNow(db, conn, id, answer, now, health), conn, answer, now, health)
  {
    if answer.Snapshot? {
      RecordedKeepsConns(db, Report(id, answer.amountCents, answer.due), health);
    }
  }

  /** The amount written first does not matter to the rows. */
  lemma PricedRows(db: Db, r: Report, health: Health) returns (priced: Db)
    requires Valid(db)
    ensures Valid(priced) && priced.instances == db.instances && priced.defs.Keys == db.defs.Keys
    ensures Recorded(db, r, health) ==
              if r.amountCents > 0 && health.place then Ensured(priced, r.definition, r.due) else priced
  {
    priced := if health.price then Repriced(Noted(db, r), r.definition, r.amountCents) else Noted(db, r);
    NotedKeepsValid(db, r);
    assert Valid(priced) by {
      RepriceKeepsValid(Noted(db, r), r.definition, r.amountCents);
    }
  }

  lemma NotedKeepsValid(db: Db, r: Report)
    requires Valid(db)
    ensures Valid(Noted(db, r))
  {}

  lemma RecordedRows(db: Db, r: Report, health: Health)
    requires Valid(db)
    ensures var b := Recorded(db, r, health);
            && RowsStay(db, b)
            && forall d, day :: HasRow(b, d, day) <==>
                 HasRow(db, d, day)
                 || (r.definition in db.defs && health.place && r.amountCents > 0 && d == r.definition && day == r.due)
  {
    var priced := PricedRows(db, r, health);
    SameInstances(db, priced);
    if r.amountCents > 0 && health.place {
      EnsureDoes(priced, r.definition, r.due);
    }
  }

  lemma StampKeepsInstances(db: Db, conn: nat, id: nat, answer: Fetched, now: int, health: Health)
    ensures RefreshedNow(db, conn, id, answer, now, health).instances
            == if answer.Failed? then db.instances
               else Recorded(db, Report(id, answer.amountCents, answer.due), health).instances
  {}

  lemma PlacesDueDate(db: Db, conn: nat, id: nat, answer: Fetched, now: int, health: Health)
    requires Valid(db)
    ensures DueDatePlaced(db, RefreshedNow(db, conn, id, answer, now, health), id, answer, health)
  {
    var b := RefreshedNow(db, conn, id, answer, now, health);
    StampKeepsInstances(db, conn, id, answer, now, health);
    if answer.Failed? {
      SameInstances(db, b);
    } else {
      var r := Report(id, answer.amountCents, answer.due);
      RecordedRows(db, r, health);
      SameInstances(Recorded(db, r, health), b);
    }
  }

  lemma SameInstances(a: Db, b: Db)
    requires a.instances == b.instances
    ensures RowsStay(a, b) && forall d, day :: HasRow(a, d, day) == HasRow(b, d, day)
  {}

  lemma RefreshStaysValid(db: Db, conn: nat, id: nat, answer: Fetched, now: int, health: Health)
    requires Valid(db)
    ensures Valid(RefreshedNow(db, conn, id, answer, now, health))
  {
    match answer
    case Failed(reason) => SyncedKeepsValid(db, conn, now, "", Some(reason));
    case Snapshot(amountCents, due, account) =>
      RecordedFollows(db, Report(id, amountCents, due), health);
      SyncedKeepsValid(Recorded(db, Report(id, amountCents, due), health), conn, now, account, None);
  }

  lemma RefreshDoes(db: Db, conn: nat, id: nat, answer: Fetched, now: int, health: Health)
    requires Valid(db)
    ensures RefreshEffect(db, RefreshedNow(db, conn, id, answer, now, health), conn, id, answer, now, health)
  {
    RefreshStaysValid(db, conn, id, answer, now, health);
    TakesAmount(db, conn, id, answer, now, health);
    PlacesDueDate(db, conn, id, answer, now, health);
    StampsConn(db, conn, id, answer, now, health);
  }

  // ----- settings -----

  /**
   A valid form becomes a settings bill under a new id, with its window unless
   an insert fails; anything else changes no table.
   */
  ghost predicate AddEffect(a: Db, b: Db, form: Form, clock: Clock) {
    var def, id := FromForm(form), a.nextDef;
    if def.Some? && Storable(def.value) then
      && Valid(b) && OnlyTouches(a, b, id) && RowsStay(a, b) && IsNew(a, id)
      && id in b.defs && b.defs[id] == def.value && !b.defs[id].managed && !HasConn(b, id)
      && WellShaped(def.value.plan) && NewRowsAreDue(a, b, id, def.value.plan, clock)
      && (clock.rowsFail.None? ==> HasWindow(b, id, def.value.plan, clock.today, clock.lookahead))
    else Valid(b) && b.defs == a.defs && b.instances == a.instances && b.conns == a.conns
  }

  /** Writing one definition and adding instances of it touches nothing else. */
  lemma WrittenTouches(a: Db, b: Db, id: nat)
    requires b.conns == a.conns && RowsStay(a, b)
    requires forall d :: d != id ==> (d in a.defs <==> d in b.defs) && (d in a.defs ==> b.defs[d] == a.defs[d])
    requires forall i :: i in b.instances && i !in a.instances ==> b.instances[i].definition == id
    ensures OnlyTouches(a, b, id)
  {}

  lemma CreatedAndGenerated(a: Db, b: Db, c: Db, def: Definition, id: nat, clock: Clock)
    requires CreateEffect(a, b, def, Some(id)) && InRange(def.plan) && GenerateEffect(b, c, id, def.plan, clock)
    ensures Valid(c) && OnlyTouches(a, c, id) && RowsStay(a, c) && IsNew(a, id)
    ensures id in c.defs && c.defs[id] == def && !HasConn(c, id) && NewRowsAreDue(a, c, id, def.plan, clock)
    ensures clock.rowsFail.None? ==> HasWindow(c, id, def.plan, clock.today, clock.lookahead)
  {
    WrittenTouches(a, c, id);
  }

  lemma AddDoes(db: Db, form: Form, clock: Clock)
    requires Valid(db)
    ensures AddEffect(db, BillAdded(db, form, clock), form, clock)
  {
    if FromForm(form).Some? {
      FormMeetsCheck(form);
      var def := FromForm(form).value;
      CreateDoes(db, def);
      if Storable(def) {
        GenerateDoes(Created(db, def), db.nextDef, def.plan, clock);
        CreatedAndGenerated(db, Created(db, def), BillAdded(db, form, clock), def, db.nextDef, clock);
      }
    }
  }

  /**
   A settings bill takes a valid form's values and keeps its instances and
   connection; a managed or missing one is left alone.
   */
  ghost predicate UpdateEffect(a: Db, b: Db, id: nat, form: Form, clock: Clock) {
    var def := FromForm(form);
    if id in a.defs && !a.defs[id].managed && def.Some? && Storable(def.value) then
      && Valid(b) && OnlyTouches(a, b, id) && RowsStay(a, b) && b.conns == a.conns
      && id in b.defs && b.defs[id] == def.value
      && WellShaped(def.value.plan) && NewRowsAreDue(a, b, id, def.value.plan, clock)
      && (clock.rowsFail.None? ==> HasWindow(b, id, def.value.plan, clock.today, clock.lookahead))
    else b == a
  }

  lemma EditedAndGenerated(a: Db, b: Db, c: Db, def: Definition, id: nat, clock: Clock)
    requires EditEffect(a, b, id, def, true) && id in a.defs && Storable(def) && InRange(def.plan)
    requires GenerateEffect(b, c, id, def.plan, clock)
    ensures Valid(c) && OnlyTouches(a, c, id) && RowsStay(a, c) && c.conns == a.conns
    ensures id in c.defs && c.defs[id] == def.(managed := a.defs[id].managed)
    ensures NewRowsAreDue(a, c, id, def.plan, clock)
    ensures clock.rowsFail.None? ==> HasWindow(c, id, def.plan, clock.today, clock.lookahead)
  {
    WrittenTouches(a, c, id);
  }

  lemma UpdateDoes(db: Db, id: nat, form: Form, clock: Clock)
    requires Valid(db)
    ensures UpdateEffect(db, BillUpdated(db, id, form, clock), id, form, clock)
  {
    if id in db.defs && !db.defs[id].managed && FromForm(form).Some? {
      FormMeetsCheck(form);
      var def := FromForm(form).value;
      if Storable(def) {
        SettingsEditDoes(db, id, def);
        GenerateDoes(Updated(db, id, def), id, def.plan, clock);
        EditedAndGenerated(db, Updated(db, id, def), BillUpdated(db, id, form, clock), def, id, clock);
      }
    }
  }

  // ----- a pass -----

  /** The `k`-th row is the connection's, it is stale, and its stamp goes through. */
  predicate Stamps(r: Row, k: nat, answers: Answers, conn: nat) {
    r.conn == conn && answers.health(k).stamp && !Fresh(r.row.syncedAt, answers.now(k), answers.interval)
  }

  /** And the vendor gives an account number. */
  predicate Numbers(r: Row, k: nat, answers: Answers, conn: nat) {
    Stamps(r, k, answers, conn) && answers.fetch(k).Snapshot? && answers.fetch(k).account != ""
  }

  /** The last row of a connection that is stamped. */
  function LastStamp(rows: seq<Row>, answers: Answers, conn: nat): (r: Option<nat>)
    ensures r.None? ==> forall k: nat :: k < |rows| ==> !Stamps(rows[k], k, answers, conn)
    ensures r.Some? ==>
              && r.value < |rows| && Stamps(rows[r.value], r.value, answers, conn)
              && forall k: nat :: r.value < k < |rows| ==> !Stamps(rows[k], k, answers, conn)
    decreases |rows|
  {
    if rows == [] then None
    else
      var n := |rows| - 1;
      if Stamps(rows[n], n, answers, conn) then Some(n) else LastStamp(rows[..n], answers, conn)
  }

  /** The last row of a connection for which an account number is given. */
  function LastNumber(rows: seq<Row>, answers: Answers, conn: nat): (r: Option<nat>)
    ensures r.None? ==> forall k: nat :: k < |rows| ==> !Numbers(rows[k], k, answers, conn)
    ensures r.Some? ==>
              && r.value < |rows| && Numbers(rows[r.value], r.value, answers, conn)
              && forall k: nat :: r.value < k < |rows| ==> !Numbers(rows[k], k, answers, conn)
    decreases |rows|
  {
    if rows == [] then None
    else
      var n := |rows| - 1;
      if Numbers(rows[n], n, answers, conn) then Some(n) else LastNumber(rows[..n], answers, conn)
  }

  /**
   A connection after a pass: the time and error of its last stamp, the last
   account number any answer gave, and everything else as it was.
   */
  predicate ShowsPass(before: Connection, row: Connection, rows: seq<Row>, answers: Answers, conn: nat) {
    && row.login == before.login && row.definition == before.definition && row.managed == before.managed
    && (match LastStamp(rows, answers, conn)
        case None => row == before
        case Some(k) => row.syncedAt == Some(answers.now(k)) && row.syncError == ErrorOf(answers.fetch(k)))
    && (match LastNumber(rows, answers, conn)
        case None => row.account == before.account
        case Some(k) => row.account == Some(answers.fetch(k).account))
  }

  /** One more row of the listing. */
  lemma ShowsOneMore(before: Connection, mid: Connection, row: Connection, rows: seq<Row>, answers: Answers, conn: nat)
    requires rows != [] && ShowsPass(before, mid, rows[..|rows| - 1], answers, conn)
    requires var n := |rows| - 1;
             if Stamps(rows[n], n, answers, conn) then IsStamped(mid, row, answers.fetch(n), answers.now(n))
             else row == mid
    ensures ShowsPass(before, row, rows, answers, conn)
  {
    var n := |rows| - 1;
    if !Stamps(rows[n], n, answers, conn) {
      assert LastStamp(rows, answers, conn) == LastStamp(rows[..n], answers, conn);
      assert LastNumber(rows, answers, conn) == LastNumber(rows[..n], answers, conn);
    }
  }

  lemma {:induction false} PassOnConnection(db: Db, rows: seq<Row>, answers: Answers, conn: nat)
    requires Valid(db) && conn in db.conns
    ensures var b := Passed(db, rows, answers);
            Valid(b) && conn in b.conns && ShowsPass(db.conns[conn], b.conns[conn], rows, answers, conn)
    decreases |rows|
  {
    if rows == [] {
    } else {
      var n := |rows| - 1;
      var mid := Passed(db, rows[..n], answers);
      var r := rows[n];
      PassOnConnection(db, rows[..n], answers, conn);
      if !Fresh(r.row.syncedAt, answers.now(n), answers.interval) {
        RefreshDoes(mid, r.conn, r.row.definition, answers.fetch(n), answers.now(n), answers.health(n));
      }
      ShowsOneMore(db.conns[conn], mid.conns[conn], Passed(db, rows, answers).conns[conn], rows, answers, conn);
    }
  }
}
