/** What a reconciliation with bills.json leaves behind. */
module ReconcileResult {
  import opened Schedule
  import opened Ledger
  import opened Entries
  import opened Reconcile
  import opened Footprint

  // ----- bills created in the settings page are not touched -----

  ghost predicate IsUi(db: Db, id: nat) {
    id in db.defs && !db.defs[id].managed
  }

  /** Definitions of the settings page with their instances and connections, in both directions. */
  ghost predicate UiSame(a: Db, b: Db) {
    && (forall id :: IsUi(a, id) <==> IsUi(b, id))
    && (forall id :: IsUi(a, id) ==> b.defs[id] == a.defs[id])
    && (forall i :: i in a.instances && IsUi(a, a.instances[i].definition) ==>
          i in b.instances && b.instances[i] == a.instances[i])
    && (forall i :: i in b.instances && IsUi(a, b.instances[i].definition) ==>
          i in a.instances && b.instances[i] == a.instances[i])
    && (forall c :: c in a.conns && IsUi(a, a.conns[c].definition) ==> c in b.conns && b.conns[c] == a.conns[c])
    && (forall c :: c in b.conns && IsUi(a, b.conns[c].definition) ==> c in a.conns && b.conns[c] == a.conns[c])
  }

  lemma UiSameTransitive(a: Db, b: Db, c: Db)
    requires UiSame(a, b) && UiSame(b, c)
    ensures UiSame(a, c)
  {}

  /** What one entry does, whatever fails: it works on one file-managed definition. */
  ghost predicate OnManaged(a: Db, b: Db, id: nat) {
    && Valid(b) && OnlyTouches(a, b, id) && RowsStay(a, b)
    && a.nextDef <= b.nextDef && ReportsOf(a, b, id)
    && (id in a.defs ==> a.defs[id].managed && id in b.defs && b.defs[id].name == a.defs[id].name)
    && (id in b.defs ==> b.defs[id].managed)
  }

  lemma OnManagedKeepsUi(a: Db, b: Db, id: nat)
    requires OnManaged(a, b, id) && Valid(a)
    ensures UiSame(a, b)
  {}

  lemma OnManagedThenFollows(a: Db, b: Db, c: Db, id: nat)
    requires OnManaged(a, b, id) && Follows(b, c, id)
    ensures OnManaged(a, c, id)
  {
    TouchesTransitive(a, b, c, id);
  }

  lemma CreatedOnManaged(db: Db, def: Definition)
    requires Valid(db) && def.managed
    ensures OnManaged(db, Created(db, def), db.nextDef)
  {
    CreateKeepsValid(db, def);
  }

  lemma UpdatedOnManaged(db: Db, id: nat, def: Definition)
    requires Valid(db) && id in db.defs && db.defs[id].managed
    ensures OnManaged(db, UpdatedBootstrap(db, id, def), id)
  {
    UpdateKeepsValid(db, id, def);
  }

  lemma CreatedThen(db: Db, def: Definition, e: Entry, i: nat, env: Env)
    requires Valid(db) && def.managed && InRange(def.plan)
    ensures var db' := FollowUp(Created(db, def), db.nextDef, def.plan, e, i, env);
            && OnManaged(db, db', db.nextDef)
            && (db.nextDef in db'.defs <==> Storable(def)) && (Storable(def) ==> db'.defs[db.nextDef].name == def.name)
  {
    CreatedOnManaged(db, def);
    var db' := FollowUp(Created(db, def), db.nextDef, def.plan, e, i, env);
    FollowUpFollows(Created(db, def), db.nextDef, def.plan, e, i, env);
    OnManagedThenFollows(db, Created(db, def), db', db.nextDef);
  }

  lemma UpdatedThen(db: Db, id: nat, def: Definition, plan: Plan, e: Entry, i: nat, env: Env)
    requires Valid(db) && id in db.defs && db.defs[id].managed && InRange(plan)
    ensures var db' := FollowUp(UpdatedBootstrap(db, id, def), id, plan, e, i, env);
            OnManaged(db, db', id)
  {
    UpdatedOnManaged(db, id, def);
    var db' := FollowUp(UpdatedBootstrap(db, id, def), id, plan, e, i, env);
    FollowUpFollows(UpdatedBootstrap(db, id, def), id, plan, e, i, env);
    OnManagedThenFollows(db, UpdatedBootstrap(db, id, def), db', id);
  }

  lemma NothingOnManaged(db: Db)
    requires Valid(db)
    ensures OnManaged(db, db, db.nextDef)
  {}

  lemma EntryInserts(db: Db, e: Entry, i: nat, env: Env)
    requires Valid(db) && IsChooser(env.pick) && FromEntry(e).Some? && Named(db, e.name) == {}
    ensures var b := EntryDone(db, e, i, env);
            OnManaged(db, b, db.nextDef) && (db.nextDef in b.defs ==> b.defs[db.nextDef].name == e.name)
  {
    EntryMeetsCheck(e);
    NothingOnManaged(db);
    var def := FromEntry(e).value.(managed := true);
    CreatedOnManaged(db, def);
    CreatedThen(db, def, e, i, env);
  }

  lemma EntryFinds(db: Db, e: Entry, i: nat, env: Env) returns (id: nat)
    requires Valid(db) && IsChooser(env.pick) && FromEntry(e).Some? && Named(db, e.name) != {}
    ensures OnManaged(db, EntryDone(db, e, i, env), id)
    ensures if id in db.defs then db.defs[id].name == e.name else EntryDone(db, e, i, env) == db
  {
    EntryMeetsCheck(e);
    NothingOnManaged(db);
    id := db.nextDef;
    var def := FromEntry(e).value;
    var found := env.pick(i, Named(db, e.name));
    var def' := Incoming(def, e, db.defs[found]);
    if env.ok(i, Lookup) && db.defs[found].managed && env.ok(i, Write) && Storable(def') {
      id := found;
      UpdatedThen(db, found, def', def.plan, e, i, env);
    }
  }

  lemma EntryOnManaged(db: Db, e: Entry, i: nat, env: Env) returns (id: nat)
    requires Valid(db) && IsChooser(env.pick)
    ensures OnManaged(db, EntryDone(db, e, i, env), id)
    ensures id in EntryDone(db, e, i, env).defs ==> EntryDone(db, e, i, env).defs[id].name == e.name
  {
    if FromEntry(e).None? {
      id := db.nextDef;
      NothingOnManaged(db);
    } else {
      EntryMeetsCheck(e);
      if Named(db, e.name) == {} {
        id := db.nextDef;
        EntryInserts(db, e, i, env);
      } else {
        id := EntryFinds(db, e, i, env);
      }
    }
  }

  /** The row an entry is about: a new one if its name is free, else the one the lookup returns. */
  function RowFor(db: Db, e: Entry, i: nat, env: Env): nat {
    if Named(db, e.name) == {} then db.nextDef else env.pick(i, Named(db, e.name))
  }

  /**
   The entry is valid and gets as far as its row: the lookup works, the row may
   be written, and the write goes through.
   */
  ghost predicate GoesThrough(db: Db, e: Entry, i: nat, env: Env)
    requires IsChooser(env.pick)
  {
    && FromEntry(e).Some? && env.ok(i, Lookup)
    && if Named(db, e.name) == {} then env.ok(i, Insert) && FitsInteger(e.amountCents)
       else
         var was := db.defs[RowFor(db, e, i, env)];
         was.managed && env.ok(i, Write) && FitsInteger(if e.connector != "" then was.amountCents else e.amountCents)
  }

  /** The entry's row carries what the entry says. */
  ghost predicate Carried(b: Db, id: nat, e: Entry, i: nat, env: Env) {
    && id in b.defs && b.defs[id].name == e.name && b.defs[id].managed && FromEntry(e).Some?
    && b.defs[id].plan == FromEntry(e).value.plan && b.defs[id].vendorURL == FromEntry(e).value.vendorURL
    && (e.connector == "" ==>
          && b.defs[id].amountCents == e.amountCents
          && (env.rowsFail(i).None? && InRange(b.defs[id].plan) ==>
                HasWindow(b, id, b.defs[id].plan, env.today, env.lookahead)))
  }

  lemma CarriedByNew(db: Db, e: Entry, i: nat, env: Env)
    requires Valid(db) && IsChooser(env.pick) && GoesThrough(db, e, i, env) && Named(db, e.name) == {}
    ensures Carried(EntryDone(db, e, i, env), db.nextDef, e, i, env)
  {
    EntryMeetsCheck(e);
    var def := FromEntry(e).value.(managed := true);
    CreateKeepsValid(db, def);
    FollowUpFollows(Created(db, def), db.nextDef, def.plan, e, i, env);
  }

  lemma CarriedByOld(db: Db, e: Entry, i: nat, env: Env)
    requires Valid(db) && IsChooser(env.pick) && GoesThrough(db, e, i, env) && Named(db, e.name) != {}
    ensures Carried(EntryDone(db, e, i, env), RowFor(db, e, i, env), e, i, env)
  {
    EntryMeetsCheck(e);
    var id, def := RowFor(db, e, i, env), FromEntry(e).value;
    assert id in Named(db, e.name);
    var def' := Incoming(def, e, db.defs[id]);
    UpdateKeepsValid(db, id, def');
    FollowUpFollows(UpdatedBootstrap(db, id, def'), id, def.plan, e, i, env);
  }

  /** No table differs; ids may have been used up. */
  predicate SameTables(a: Db, b: Db) {
    b.defs == a.defs && b.instances == a.instances && b.conns == a.conns
  }

  lemma GivenUp(db: Db, e: Entry, i: nat, env: Env)
    requires Valid(db) && IsChooser(env.pick) && !GoesThrough(db, e, i, env)
    ensures SameTables(db, EntryDone(db, e, i, env))
  {
    if FromEntry(e).Some? {
      EntryMeetsCheck(e);
    }
  }

  /** An entry that gets as far as its row is carried by it; one that does not changes no table. */
  lemma EntryIsCarriedOrGivenUp(db: Db, e: Entry, i: nat, env: Env)
    requires Valid(db) && IsChooser(env.pick)
    ensures if GoesThrough(db, e, i, env) then Carried(EntryDone(db, e, i, env), RowFor(db, e, i, env), e, i, env)
            else SameTables(db, EntryDone(db, e, i, env))
  {
    if !GoesThrough(db, e, i, env) {
      GivenUp(db, e, i, env);
    } else if Named(db, e.name) == {} {
      CarriedByNew(db, e, i, env);
    } else {
      CarriedByOld(db, e, i, env);
    }
  }

  lemma {:induction false} EntriesKeepUi(db: Db, entries: seq<Entry>, env: Env)
    requires Valid(db) && IsChooser(env.pick)
    ensures Valid(EntriesDone(db, entries, env)) && UiSame(db, EntriesDone(db, entries, env))
    decreases |entries|
  {
    if entries == [] {
    } else {
      var n := |entries| - 1;
      EntriesKeepUi(db, entries[..n], env);
      var mid := EntriesDone(db, entries[..n], env);
      var id := EntryOnManaged(mid, entries[n], n, env);
      OnManagedKeepsUi(mid, EntryDone(mid, entries[n], n, env), id);
      UiSameTransitive(db, mid, EntryDone(mid, entries[n], n, env));
    }
  }

  lemma RemovedKeepsValid(db: Db, ids: set<nat>)
    requires Valid(db)
    ensures Valid(Removed(db, ids))
  {}

  lemma RemovedKeepsUi(db: Db, ids: set<nat>)
    requires Valid(db) && forall id :: id in ids ==> !IsUi(db, id)
    ensures UiSame(db, Removed(db, ids))
  {}

  /**
   Whatever the state, the file, the rows that lookups return and the store and
   vendor failures, a reconciliation leaves every bill of the settings page as
   it was: definition, instances and connection.
   */
  lemma ReconcileKeepsUi(db: Db, entries: seq<Entry>, env: Env)
    requires Valid(db) && IsChooser(env.pick)
    ensures Valid(Reconciled(db, entries, env)) && UiSame(db, Reconciled(db, entries, env))
  {
    EntriesKeepUi(db, entries, env);
    var done := EntriesDone(db, entries, env);
    var ids := Doomed(done, entries, env);
    RemovedKeepsValid(done, ids);
    RemovedKeepsUi(done, ids);
    UiSameTransitive(db, done, Removed(done, ids));
  }
}
