/**
 The database as the program uses it: tables that the store calls update in
 place (internal/models), and the loops of the scheduler, the settings handlers
 and the reconciliation over them. Each method says what its caller finds
 afterwards, and is tied to the function of the old tables that the other
 modules reason about. Every method keeps the schema's constraints.
 */
module Database {
  import opened Basics
  import opened Civil
  import opened Schedule
  import opened Ledger
  import opened World
  import opened Entries
  import opened Refresh
  import opened Handlers
  import opened Reconcile
  import opened Footprint
  import opened ReconcileResult
  import opened ReconcileNames
  import opened LastKnown
  import opened Leftover
  import opened Effects
  import opened Credentials
  import opened Undisturbed

  class Database {
    var defs: map<nat, Definition>
    var instances: map<nat, Instance>
    var conns: map<nat, Connection>
    var nextDef: nat
    var nextInst: nat
    var nextConn: nat
    /** The vendors' successful answers; not a table. */
    ghost var reports: seq<Report>

    ghost function Tables(): Db
      reads this
    {
      Db(defs, instances, conns, nextDef, nextInst, nextConn, reports)
    }

    constructor ()
      ensures Tables() == EMPTY && Valid(Tables())
    {
      defs, instances, conns := map[], map[], map[];
      nextDef, nextInst, nextConn := 1, 1, 1;
      reports := [];
    }

    // ----- store calls -----

    /** The new bill's id, never used before; or none, and no new bill, if a CHECK is violated. */
    method Create(def: Definition) returns (id: Option<nat>)
      requires Valid(Tables())
      modifies this
      ensures CreateEffect(old(Tables()), Tables(), def, id)
      ensures Tables() == Created(old(Tables()), def) && (id.Some? ==> id.value == old(nextDef))
    {
      ghost var before := Tables();
      id := None;
      if Storable(def) {
        defs := defs[nextDef := def];
        id := Some(nextDef);
      }
      nextDef := nextDef + 1;
      assert Tables() == Created(before, def);
      CreateDoes(before, def);
    }

    method Update(id: nat, def: Definition) returns (ok: bool)
      requires Valid(Tables())
      modifies this
      ensures ok == Storable(def) && EditEffect(old(Tables()), Tables(), id, def, true)
      ensures Tables() == Updated(old(Tables()), id, def)
    {
      SettingsEditDoes(Tables(), id, def);
      ok := Storable(def);
      if ok && id in defs {
        defs := defs[id := def.(managed := defs[id].managed)];
      }
    }

    method UpdateBootstrap(id: nat, def: Definition) returns (ok: bool)
      requires Valid(Tables())
      modifies this
      ensures ok == Storable(def) && EditEffect(old(Tables()), Tables(), id, def, false)
      ensures Tables() == UpdatedBootstrap(old(Tables()), id, def)
    {
      FileEditDoes(Tables(), id, def);
      ok := Storable(def);
      if ok && id in defs {
        defs := defs[id := def.(name := defs[id].name, managed := defs[id].managed)];
      }
    }

    method UpdateAmount(id: nat, amountCents: int)
      requires Valid(Tables())
      modifies this
      ensures PriceEffect(old(Tables()), Tables(), id, amountCents)
      ensures Tables() == Repriced(old(Tables()), id, amountCents)
    {
      PriceDoes(Tables(), id, amountCents);
      if id in defs && FitsInteger(amountCents) {
        defs := defs[id := defs[id].(amountCents := amountCents)];
      }
    }

    method Delete(id: nat)
      requires Valid(Tables())
      modifies this
      ensures DeleteEffect(old(Tables()), Tables(), id)
      ensures Tables() == Deleted(old(Tables()), id)
    {
      DeleteDoes(Tables(), id);
      defs := defs - {id};
      instances := map i | i in instances && instances[i].definition != id :: instances[i];
      conns := map c | c in conns && conns[c].definition != id :: conns[c];
    }

    method EnsureInstance(id: nat, due: Date) returns (ok: bool)
      requires Valid(Tables())
      modifies this
      ensures ok == (id in old(defs)) && EnsureEffect(old(Tables()), Tables(), id, due)
      ensures Tables() == Ensured(old(Tables()), id, due)
    {
      ghost var before := Tables();
      ok := id in defs;
      if ok {
        if !(exists i :: i in instances && SameRow(instances[i], Instance(id, due, false))) {
          instances := instances[nextInst := Instance(id, due, false)];
        }
        nextInst := nextInst + 1;
      }
      assert Tables() == Ensured(before, id, due);
      EnsureDoes(before, id, due);
    }

    method MarkPaid(instance: nat) returns (ok: bool)
      requires Valid(Tables())
      modifies this
      ensures ok == (instance in old(instances)) && PayEffect(old(Tables()), Tables(), instance)
      ensures Tables() == Paid(old(Tables()), instance)
    {
      ghost var before := Tables();
      ok := instance in instances;
      if ok {
        instances := instances[instance := instances[instance].(paid := true)];
      }
      assert Tables() == Paid(before, instance);
      PayDoes(before, instance);
    }

    method Upsert(id: nat, login: Login)
      requires Valid(Tables())
      modifies this
      ensures UpsertEffect(old(Tables()), Tables(), id, login)
      ensures Tables() == Upserted(old(Tables()), id, login)
    {
      ghost var before := Tables();
      if id in defs {
        if exists c :: c in conns && conns[c].definition == id {
          conns := map c | c in conns ::
            if conns[c].definition == id then conns[c].(login := login, managed := true) else conns[c];
        } else {
          conns := conns[nextConn := Connection(id, login, true, None, None, None)];
        }
      }
      nextConn := nextConn + 1;
      assert Tables() == Upserted(before, id, login);
      UpsertDoes(before, id, login);
    }

    method MarkSynced(conn: nat, now: int, account: string, error: Option<string>)
      requires Valid(Tables())
      modifies this
      ensures SyncEffect(old(Tables()), Tables(), conn, now, account, error)
      ensures Tables() == Synced(old(Tables()), conn, now, account, error)
    {
      ghost var before := Tables();
      if conn in conns {
        var c := conns[conn];
        conns := conns[conn := c.(syncedAt := Some(now), syncError := error,
                                  account := if account == "" then c.account else Some(account))];
      }
      assert Tables() == Synced(before, conn, now, account, error);
      SyncDoes(before, conn, now, account, error);
    }

    /** Records a vendor's answer; no store call. */
    ghost method Note(r: Report)
      requires Valid(Tables())
      modifies `reports
      ensures Tables() == Noted(old(Tables()), r) && Valid(Tables())
    {
      if r.definition < nextDef {
        reports := reports + [r];
      }
    }

    // ----- scheduler -----

    /** `GenerateInstancesForDefinition`. */
    method GenerateInstances(id: nat, plan: Plan, clock: Clock)
      requires Valid(Tables()) && InRange(plan)
      modifies this
      ensures GenerateEffect(old(Tables()), Tables(), id, plan, clock)
      ensures Tables() == GeneratedFor(old(Tables()), id, plan, clock)
    {
      GenerateDoes(Tables(), id, plan, clock);
      var today := OfOrdinal(clock.today);
      var until := AddDate(today, 0, 0, clock.lookahead);
      var dates := NextDueDates(plan, today, until);
      EnsureAll(id, dates, clock.rowsFail);
    }

    /** Its loop: the first insert that fails ends it. */
    method EnsureAll(id: nat, dates: seq<Date>, rowsFail: Option<nat>)
      requires Valid(Tables())
      modifies this
      ensures Tables() == Generated(old(Tables()), id, Written(dates, rowsFail))
    {
      ghost var todo := Written(dates, rowsFail);
      assert dates[..|dates|] == dates;
      var k := 0;
      while k < |dates|
        invariant k <= |todo| <= |dates| && todo == dates[..|todo|]
        invariant Valid(Tables()) && Tables() == Generated(old(Tables()), id, todo[..k])
      {
        if rowsFail == Some(k) {
          break;
        }
        GeneratedNext(old(Tables()), id, todo, k);
        var ok := EnsureInstance(id, dates[k]);
        if !ok {
          return;
        }
        k := k + 1;
      }
      assert todo[..k] == todo;
    }

    /** One tick: list, then generate for each definition listed. */
    method Tick(listed: seq<Held>, clocks: nat -> Clock)
      requires Valid(Tables()) && InRangeAll(listed)
      modifies this
      ensures TickEffect(old(Tables()), Tables(), listed, clocks)
      ensures Tables() == Ticked(old(Tables()), listed, clocks)
    {
      TickDoes(Tables(), listed, clocks);
      for k := 0 to |listed|
        invariant Valid(Tables()) && Tables() == Ticked(old(Tables()), listed[..k], clocks)
      {
        assert listed[..k + 1][..k] == listed[..k];
        GenerateInstances(listed[k].id, listed[k].def.plan, clocks(k));
      }
      assert listed[..|listed|] == listed;
    }

    /** `RefreshVendorConnectionNow`, once the answer is in. */
    method RefreshNow(conn: nat, definition: nat, answer: Fetched, now: int, health: Health)
      requires Valid(Tables())
      modifies this
      ensures RefreshEffect(old(Tables()), Tables(), conn, definition, answer, now, health)
      ensures Tables() == RefreshedNow(old(Tables()), conn, definition, answer, now, health)
    {
      RefreshDoes(Tables(), conn, definition, answer, now, health);
      match answer
      case Failed(reason) =>
        if health.stamp {
          MarkSynced(conn, now, "", Some(reason));
        }
      case Snapshot(amountCents, due, account) =>
        Note(Report(definition, amountCents, due));
        if health.price {
          UpdateAmount(definition, amountCents);
        }
        if amountCents > 0 && health.place {
          var _ := EnsureInstance(definition, due);
        }
        if health.stamp {
          MarkSynced(conn, now, account, None);
        }
    }

    /** `RefreshVendorConnectionIfStale`. */
    method RefreshIfStale(conn: nat, row: Connection, answer: Fetched, now: int, interval: int, health: Health)
      requires Valid(Tables())
      modifies this
      ensures if Fresh(row.syncedAt, now, interval) then Tables() == old(Tables())
              else RefreshEffect(old(Tables()), Tables(), conn, row.definition, answer, now, health)
      ensures Tables() == RefreshedIfStale(old(Tables()), conn, row, answer, now, interval, health)
    {
      if row.syncedAt.Some? {
        var age := now - row.syncedAt.value;
        if age < interval {
          return;
        }
      }
      RefreshNow(conn, row.definition, answer, now, health);
    }

    /** `refreshVendorConnections`. */
    method RefreshPass(rows: seq<Row>, answers: Answers)
      requires Valid(Tables())
      modifies this
      ensures Valid(Tables()) && Tables() == Passed(old(Tables()), rows, answers)
      ensures IsListing(old(Tables()), rows) && DistinctRows(rows) ==>
                forall id :: id in old(defs) ==> AmountFromAnswers(old(Tables()), Tables(), rows, answers, id)
      ensures forall c :: c in old(conns) ==> c in conns && ShowsPass(old(conns)[c], conns[c], rows, answers, c)
    {
      for k := 0 to |rows|
        invariant Valid(Tables()) && Tables() == Passed(old(Tables()), rows[..k], answers)
      {
        assert rows[..k + 1][..k] == rows[..k];
        RefreshIfStale(rows[k].conn, rows[k].row, answers.fetch(k), answers.now(k), answers.interval,
                       answers.health(k));
      }
      assert rows[..|rows|] == rows;
      forall c | c in old(conns)
        ensures c in conns && ShowsPass(old(conns)[c], conns[c], rows, answers, c)
      {
        PassOnConnection(old(Tables()), rows, answers, c);
      }
      if IsListing(old(Tables()), rows) && DistinctRows(rows) {
        forall id | id in old(defs)
          ensures AmountFromAnswers(old(Tables()), Tables(), rows, answers, id)
        {
          PassChangesAmountIff(old(Tables()), rows, answers, id);
        }
      }
    }

    // ----- settings -----

    method AddBill(form: Form, clock: Clock)
      requires Valid(Tables())
      modifies this
      ensures AddEffect(old(Tables()), Tables(), form, clock)
      ensures Tables() == BillAdded(old(Tables()), form, clock)
    {
      AddDoes(Tables(), form, clock);
      var def := FromForm(form);
      if def.None? {
        return;
      }
      FormMeetsCheck(form);
      var id := Create(def.value);
      if id.None? {
        return;
      }
      GenerateInstances(id.value, def.value.plan, clock);
    }

    method UpdateBill(id: nat, form: Form, clock: Clock)
      requires Valid(Tables())
      modifies this
      ensures UpdateEffect(old(Tables()), Tables(), id, form, clock)
      ensures Tables() == BillUpdated(old(Tables()), id, form, clock)
    {
      UpdateDoes(Tables(), id, form, clock);
      if id !in defs {
        return;
      }
      if defs[id].managed {
        return;
      }
      var def := FromForm(form);
      if def.None? {
        return;
      }
      FormMeetsCheck(form);
      var ok := Update(id, def.value);
      if !ok {
        return;
      }
      GenerateInstances(id, def.value.plan, clock);
    }

    method DeleteBill(id: nat)
      requires Valid(Tables())
      modifies this
      ensures if id in old(defs) && !old(defs)[id].managed then DeleteEffect(old(Tables()), Tables(), id)
              else Tables() == old(Tables())
      ensures Tables() == BillDeleted(old(Tables()), id)
    {
      if id !in defs {
        return;
      }
      if defs[id].managed {
        return;
      }
      Delete(id);
    }

    // ----- reconciliation -----

    /** `attachVendorConnection`. */
    method AttachVendorConnection(id: nat, e: Entry, i: nat, env: Env)
      requires Valid(Tables())
      modifies this
      ensures Follows(old(Tables()), Tables(), id) && AttachEffect(old(Tables()), Tables(), id, e, i, env)
      ensures Tables() == Attached(old(Tables()), id, e, i, env)
    {
      AttachedFollows(Tables(), id, e, i, env);
      AttachDoes(Tables(), id, e, i, env);
      if e.password.None? {
        return;
      }
      if e.username == "" || e.password.value == "" {
        return;
      }
      if !env.ok(i, Encrypt) || !env.ok(i, SaveLogin) {
        return;
      }
      ghost var before := Tables();
      var login := Login(e.connector, e.tenant, e.username, e.password.value);
      UpsertKeepsValid(before, id, login);
      Upsert(id, login);
      if !env.ok(i, Reread) || !(exists c :: c in conns && conns[c].definition == id) {
        return;
      }
      var c :| c in conns && conns[c].definition == id;
      assert c == ConnOf(Tables(), id);
      RefreshIfStale(c, conns[c], env.fetch(i), env.now(i), env.interval, env.health(i));
    }

    /** What follows the write of an entry's row. */
    method FollowEntry(id: nat, plan: Plan, e: Entry, i: nat, env: Env)
      requires Valid(Tables()) && InRange(plan)
      modifies this
      ensures Valid(Tables()) && Tables() == FollowUp(old(Tables()), id, plan, e, i, env)
    {
      if e.connector != "" {
        AttachVendorConnection(id, e, i, env);
        return;
      }
      GenerateInstances(id, plan, Clock(env.today, env.lookahead, env.rowsFail(i)));
    }

    /** An entry whose name is free. */
    method AddEntry(def: Definition, e: Entry, i: nat, env: Env)
      requires Valid(Tables()) && IsChooser(env.pick) && FromEntry(e) == Some(def)
      requires env.ok(i, Lookup) && Named(Tables(), def.name) == {}
      modifies this
      ensures Tables() == EntryDone(old(Tables()), e, i, env)
    {
      EntryMeetsCheck(e);
      if !env.ok(i, Insert) {
        return;
      }
      var id := Create(def.(managed := true));
      if id.None? {
        return;
      }
      FollowEntry(id.value, def.plan, e, i, env);
    }

    /** An entry whose name is taken; `id` is the row found. */
    method RefreshEntry(id: nat, def: Definition, e: Entry, i: nat, env: Env)
      requires Valid(Tables()) && IsChooser(env.pick) && FromEntry(e) == Some(def)
      requires env.ok(i, Lookup) && Named(Tables(), def.name) != {} && id == env.pick(i, Named(Tables(), def.name))
      modifies this
      ensures Tables() == EntryDone(old(Tables()), e, i, env)
    {
      EntryMeetsCheck(e);
      var existing := defs[id];
      if !existing.managed {
        return;
      }
      var incoming := Incoming(def, e, existing);
      if !env.ok(i, Write) {
        return;
      }
      var ok := UpdateBootstrap(id, incoming);
      if !ok {
        return;
      }
      FollowEntry(id, def.plan, e, i, env);
    }

    /**
     One turn of the loop of `BootstrapBills`, for an entry that passed
     validation. Only the row `touched` is worked on: one of the file's, under
     the entry's name, or none.
     */
    method ReconcileEntry(def: Definition, e: Entry, i: nat, env: Env) returns (ghost touched: nat)
      requires Valid(Tables()) && IsChooser(env.pick) && FromEntry(e) == Some(def)
      modifies this
      ensures OnManaged(old(Tables()), Tables(), touched) && (touched in defs ==> defs[touched].name == e.name)
      ensures if GoesThrough(old(Tables()), e, i, env)
              then Carried(Tables(), RowFor(old(Tables()), e, i, env), e, i, env)
              else SameTables(old(Tables()), Tables())
      ensures Tables() == EntryDone(old(Tables()), e, i, env)
    {
      ghost var before := Tables();
      if env.ok(i, Lookup) {
        var named := set d | d in defs && defs[d].name == def.name;
        assert named == Named(before, def.name);
        if named == {} {
          AddEntry(def, e, i, env);
        } else {
          RefreshEntry(env.pick(i, named), def, e, i, env);
        }
      }
      assert Tables() == EntryDone(before, e, i, env);
      touched := EntryOnManaged(before, e, i, env);
      EntryIsCarriedOrGivenUp(before, e, i, env);
    }

    /** The removal pass, in any order. */
    method RemoveUnseen(seen: set<string>, entries: seq<Entry>, env: Env)
      requires Valid(Tables()) && forall name :: name in seen <==> Seen(entries, name)
      modifies this
      ensures Valid(Tables()) && Tables() == Removed(old(Tables()), Doomed(old(Tables()), entries, env))
    {
      ghost var all := Doomed(Tables(), entries, env);
      var todo: set<nat> := set d | d in defs && defs[d].managed && defs[d].name !in seen;
      ghost var start := Tables();
      ghost var left := all;
      while todo != {}
        invariant forall d: nat :: d in left <==> d in todo && env.ok(|entries|, DeleteRow(d))
        invariant Valid(Tables()) && Removed(Tables(), left) == Removed(start, all)
        decreases |todo|
      {
        var d: nat :| d in todo;
        todo := todo - {d};
        if env.ok(|entries|, DeleteRow(d)) {
          RemovedOneByOne(Tables(), left, d);
          left := left - {d};
          Delete(d);
        }
      }
      assert left == {};
      RemovedNothing(Tables());
    }

    /** `BootstrapBills`. */
    method BootstrapBills(entries: seq<Entry>, env: Env)
      requires Valid(Tables()) && IsChooser(env.pick)
      modifies this
      ensures Valid(Tables()) && UiSame(old(Tables()), Tables()) && Survive(old(Tables()), Tables(), entries)
      ensures Tables() == Reconciled(old(Tables()), entries, env)
    {
      ReconcileKeepsUi(Tables(), entries, env);
      FileBillsSurvive(Tables(), entries, env);
      var seen: set<string> := {};
      for i := 0 to |entries|
        invariant Valid(Tables()) && Tables() == EntriesDone(old(Tables()), entries[..i], env)
        invariant forall name :: name in seen <==> Seen(entries[..i], name)
      {
        var e := entries[i];
        SeenStep(entries, i);
        assert entries[..i + 1][..i] == entries[..i];
        var def := FromEntry(e);
        if def.Some? {
          EntryMeetsCheck(e);
          seen := seen + {def.value.name};
          var _ := ReconcileEntry(def.value, e, i, env);
        }
      }
      assert entries[..|entries|] == entries;
      if env.ok(|entries|, ListAll) {
        RemoveUnseen(seen, entries, env);
      }
    }
  }

  /** One more date; for a definition that does not exist there is nothing to write, now or later. */
  lemma GeneratedNext(db: Db, id: nat, dates: seq<Date>, k: nat)
    requires k < |dates|
    ensures Generated(db, id, dates[..k + 1]) == Ensured(Generated(db, id, dates[..k]), id, dates[k])
    ensures Generated(db, id, dates[..k]).defs == db.defs
    ensures id !in db.defs ==> Ensured(Generated(db, id, dates[..k]), id, dates[k]) == Generated(db, id, dates)
  {
    assert dates[..k + 1][..k] == dates[..k];
    GeneratedKeepsDefs(db, id, dates[..k]);
    if id !in db.defs {
      GeneratedNowhere(db, id, dates[..k + 1]);
      GeneratedNowhere(db, id, dates);
    }
  }

  lemma SeenStep(entries: seq<Entry>, i: nat)
    requires i < |entries|
    ensures forall name :: Seen(entries[..i + 1], name) <==> Seen(entries[..i], name) || IsValidNamed(entries[i], name)
  {
    forall name
      ensures Seen(entries[..i + 1], name) <==> Seen(entries[..i], name) || IsValidNamed(entries[i], name)
    {
      if Seen(entries[..i], name) {
        var k :| 0 <= k < i && IsValidNamed(entries[..i][k], name);
        assert IsValidNamed(entries[..i + 1][k], name);
      }
      if IsValidNamed(entries[i], name) {
        assert IsValidNamed(entries[..i + 1][i], name);
      }
      if Seen(entries[..i + 1], name) && !IsValidNamed(entries[i], name) {
        var k :| 0 <= k <= i && IsValidNamed(entries[..i + 1][k], name);
        assert IsValidNamed(entries[..i][k], name);
      }
    }
  }
}
