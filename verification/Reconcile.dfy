/**
 Reconciling the definitions with bills.json (internal/handlers/bootstrap.go).
 It runs at startup, before anything else touches the tables.
 */
module Reconcile {
  import opened Basics
  import opened Schedule
  import opened Ledger
  import opened World
  import opened Entries
  import opened Refresh
  import opened Handlers

  /** The store calls of one entry that can fail on their own. */
  datatype Slot = Lookup | Insert | Write | Encrypt | SaveLogin | Reread | ListAll | DeleteRow(id: nat)

  /**
   What the surroundings answer, entry by entry. `pick` is the row a lookup by
   name returns: names are not unique, so it may be any row of that name.
   */
  datatype Env = Env(
    pick: (nat, set<nat>) -> nat,
    ok: (nat, Slot) -> bool,
    rowsFail: nat -> Option<nat>,
    fetch: nat -> Fetched,
    health: nat -> Health,
    now: nat -> int,
    interval: int,
    today: int,
    lookahead: int)

  ghost predicate IsChooser(pick: (nat, set<nat>) -> nat) {
    forall i: nat, s: set<nat> :: s != {} ==> pick(i, s) in s
  }

  /** The connection of a definition, if it has one. */
  ghost function ConnOf(db: Db, id: nat): (c: nat)
    requires HasConn(db, id)
    ensures c in db.conns && db.conns[c].definition == id
  {
    var c :| c in db.conns && db.conns[c].definition == id;
    c
  }

  /** The entry has credentials to log in with. */
  predicate Usable(e: Entry) {
    e.password.Some? && e.username != "" && e.password.value != ""
  }

  ghost function Attached(db: Db, id: nat, e: Entry, i: nat, env: Env): Db {
    if !Usable(e) then db
    else if !env.ok(i, Encrypt) || !env.ok(i, SaveLogin) then db
    else
      var db1 := Upserted(db, id, Login(e.connector, e.tenant, e.username, e.password.value));
      if !env.ok(i, Reread) || !HasConn(db1, id) then db1
      else
        var c := ConnOf(db1, id);
        RefreshedIfStale(db1, c, db1.conns[c], env.fetch(i), env.now(i), env.interval, env.health(i))
  }

  /** What follows once the definition's row is written. */
  ghost function FollowUp(db: Db, id: nat, plan: Plan, e: Entry, i: nat, env: Env): Db
    requires InRange(plan)
  {
    if e.connector != "" then Attached(db, id, e, i, env)
    else GeneratedFor(db, id, plan, Clock(env.today, env.lookahead, env.rowsFail(i)))
  }

  /** A connector entry does not overwrite the amount the vendor reported. */
  function Incoming(def: Definition, e: Entry, existing: Definition): Definition {
    if e.connector != "" then def.(amountCents := existing.amountCents) else def
  }

  /** One turn of the loop. */
  ghost function EntryDone(db: Db, e: Entry, i: nat, env: Env): Db
    requires IsChooser(env.pick)
  {
    match FromEntry(e)
    case None => db
    case Some(def) =>
      EntryMeetsCheck(e);
      if !env.ok(i, Lookup) then db
      else if Named(db, def.name) == {} then
        if !env.ok(i, Insert) then db
        else
          var created := Created(db, def.(managed := true));
          if Storable(def) then FollowUp(created, db.nextDef, def.plan, e, i, env) else created
      else
        var id := env.pick(i, Named(db, def.name));
        var existing := db.defs[id];
        if !existing.managed then db
        else
          var def' := Incoming(def, e, existing);
          if !env.ok(i, Write) || !Storable(def') then db
          else FollowUp(UpdatedBootstrap(db, id, def'), id, def.plan, e, i, env)
  }

  ghost function EntriesDone(db: Db, entries: seq<Entry>, env: Env): Db
    requires IsChooser(env.pick)
    decreases |entries|
  {
    if entries == [] then db
    else
      var n := |entries| - 1;
      EntryDone(EntriesDone(db, entries[..n], env), entries[n], n, env)
  }

  predicate IsValidNamed(e: Entry, name: string) {
    FromEntry(e).Some? && e.name == name
  }

  /** Whether a name is in the file, on an entry that passed validation. */
  predicate Seen(entries: seq<Entry>, name: string) {
    exists k :: 0 <= k < |entries| && IsValidNamed(entries[k], name)
  }

  /** The rows the removal pass deletes. */
  ghost function Doomed(db: Db, entries: seq<Entry>, env: Env): set<nat> {
    set d | d in db.defs && db.defs[d].managed && !Seen(entries, db.defs[d].name) && env.ok(|entries|, DeleteRow(d))
  }

  /** Deleting a set of definitions; the order does not matter. */
  function Removed(db: Db, ids: set<nat>): Db {
    db.(defs := db.defs - ids,
        instances := map i | i in db.instances && db.instances[i].definition !in ids :: db.instances[i],
        conns := map c | c in db.conns && db.conns[c].definition !in ids :: db.conns[c])
  }

  lemma RemovedOneByOne(db: Db, ids: set<nat>, id: nat)
    requires id in ids
    ensures Removed(db, ids) == Removed(Deleted(db, id), ids - {id})
  {
    var a, b := Removed(db, ids), Removed(Deleted(db, id), ids - {id});
    assert a.defs == b.defs && a.instances == b.instances && a.conns == b.conns;
  }

  lemma RemovedNothing(db: Db)
    ensures Removed(db, {}) == db
  {
    assert Removed(db, {}).instances == db.instances && Removed(db, {}).conns == db.conns
           && Removed(db, {}).defs == db.defs;
  }

  ghost function Reconciled(db: Db, entries: seq<Entry>, env: Env): Db
    requires IsChooser(env.pick)
  {
    var done := EntriesDone(db, entries, env);
    if env.ok(|entries|, ListAll) then Removed(done, Doomed(done, entries, env)) else done
  }
}
