/**
 Which logins a reconciliation saves: the fields of the entry, column by column,
 and over the whole file those of the last entry of a name that can log in.
 */
module Credentials {
  import opened Basics
  import opened Schedule
  import opened Ledger
  import opened World
  import opened Entries
  import opened Refresh
  import opened Handlers
  import opened Reconcile
  import opened Footprint
  import opened ReconcileResult
  import opened ReconcileNames
  import opened ReconcileExact
  import opened Effects

  // ----- one connector entry -----

  predicate AreFieldsOf(login: Login, e: Entry) {
    && login.connector == e.connector && login.tenant == e.tenant
    && login.username == e.username && Some(login.password) == e.password
  }

  /** The bill has a connection, and it logs in with the entry's fields. */
  ghost predicate LogsInWith(db: Db, id: nat, e: Entry) {
    && HasConn(db, id)
    && forall c :: c in db.conns && db.conns[c].definition == id ==> AreFieldsOf(db.conns[c].login, e)
  }

  /** The login is saved: the entry has one, and each store call up to there goes through. */
  predicate IsSaved(db: Db, id: nat, e: Entry, i: nat, env: Env) {
    id in db.defs && Usable(e) && env.ok(i, Encrypt) && env.ok(i, SaveLogin)
  }

  /** And the row is read back and found stale, so that the vendor is called. */
  ghost predicate IsCalled(db: Db, id: nat, e: Entry, i: nat, env: Env) {
    && IsSaved(db, id, e, i, env) && env.ok(i, Reread)
    && forall c :: c in db.conns && db.conns[c].definition == id ==>
         !Fresh(db.conns[c].syncedAt, env.now(i), env.interval)
  }

  /** Sync histories are the same. */
  ghost predicate HistoriesKept(a: Db, b: Db) {
    forall c :: c in a.conns ==>
      c in b.conns && b.conns[c] == a.conns[c].(login := b.conns[c].login, managed := b.conns[c].managed)
  }

  /** The bill's connection is stamped: with the error of the answer, and its account number or the one before. */
  ghost predicate IsMarked(a: Db, b: Db, id: nat, answer: Fetched, now: int) {
    forall c :: c in b.conns && b.conns[c].definition == id ==>
      && b.conns[c].syncedAt == Some(now) && b.conns[c].syncError == ErrorOf(answer)
      && b.conns[c].account == NumberOf(answer, if c in a.conns then a.conns[c].account else None)
  }

  /** What an attach does: nothing, or a login saved, or a login saved and a refresh. */
  ghost predicate AttachEffect(a: Db, b: Db, id: nat, e: Entry, i: nat, env: Env) {
    && (!IsSaved(a, id, e, i, env) ==> b.defs == a.defs && b.instances == a.instances && b.conns == a.conns)
    && (IsSaved(a, id, e, i, env) ==> LogsInWith(b, id, e))
    && (if IsCalled(a, id, e, i, env)
        then AmountTaken(a, b, id, env.fetch(i), env.health(i)) && DueDatePlaced(a, b, id, env.fetch(i), env.health(i))
             && (env.health(i).stamp ==> IsMarked(a, b, id, env.fetch(i), env.now(i)))
        else b.defs == a.defs && b.instances == a.instances && HistoriesKept(a, b))
  }

  lemma SavedLogin(db: Db, id: nat, e: Entry)
    requires Valid(db) && Usable(e) && id in db.defs
    ensures var b := Upserted(db, id, Login(e.connector, e.tenant, e.username, e.password.value));
            LogsInWith(b, id, e) && HistoriesKept(db, b)
  {
    UpsertDoes(db, id, Login(e.connector, e.tenant, e.username, e.password.value));
  }

  /** Without the bill there is nothing to attach to. */
  lemma SavedNowhere(db: Db, id: nat, login: Login)
    requires Valid(db) && id !in db.defs
    ensures var b := Upserted(db, id, login);
            b.defs == db.defs && b.instances == db.instances && b.conns == db.conns && !HasConn(b, id)
  {}

  lemma RefreshKeepsLogin(db: Db, c: nat, id: nat, e: Entry, answer: Fetched, now: int, health: Health)
    requires Valid(db) && LogsInWith(db, id, e) && c in db.conns && db.conns[c].definition == id
    ensures var b := RefreshedNow(db, c, id, answer, now, health);
            LogsInWith(b, id, e) && (health.stamp ==> IsMarked(db, b, id, answer, now))
  {
    var b := RefreshedNow(db, c, id, answer, now, health);
    StampsConn(db, c, id, answer, now, health);
    assert c in b.conns && b.conns[c].definition == id;
    forall d | d in b.conns && b.conns[d].definition == id
      ensures d == c
    {
      assert d in db.conns && db.conns[d].definition == id;
    }
  }

  /** Reading back after saving: the row is as stale as it was. */
  lemma StaleAfterSaving(db: Db, b: Db, id: nat, e: Entry, i: nat, env: Env, c: nat)
    requires Valid(db) && Valid(b) && IsSaved(db, id, e, i, env) && env.ok(i, Reread)
    requires UpsertEffect(db, b, id, Login(e.connector, e.tenant, e.username, e.password.value))
    requires c in b.conns && b.conns[c].definition == id
    ensures IsCalled(db, id, e, i, env) <==> !Fresh(b.conns[c].syncedAt, env.now(i), env.interval)
  {
    if d :| d in db.conns && db.conns[d].definition == id {
      assert d in b.conns && b.conns[d].definition == id;
      assert d == c;
    }
  }

  lemma CalledDoes(db: Db, db1: Db, c: nat, id: nat, answer: Fetched, now: int, health: Health)
    requires Valid(db1) && db1.defs == db.defs && db1.instances == db.instances
    ensures var b := RefreshedNow(db1, c, id, answer, now, health);
            AmountTaken(db, b, id, answer, health) && DueDatePlaced(db, b, id, answer, health)
  {
    TakesAmount(db1, c, id, answer, now, health);
    PlacesDueDate(db1, c, id, answer, now, health);
    SameInstances(db, db1);
  }

  /** A connection just saved has the account number it had, or none. */
  lemma MarkedSinceSaving(a: Db, b: Db, c: Db, id: nat, login: Login, answer: Fetched, now: int)
    requires UpsertEffect(a, b, id, login) && IsMarked(b, c, id, answer, now) && c.conns.Keys == b.conns.Keys
    ensures IsMarked(a, c, id, answer, now)
  {}

  lemma AttachDoes(db: Db, id: nat, e: Entry, i: nat, env: Env)
    requires Valid(db)
    ensures AttachEffect(db, Attached(db, id, e, i, env), id, e, i, env)
  {
    if Usable(e) && env.ok(i, Encrypt) && env.ok(i, SaveLogin) {
      var login := Login(e.connector, e.tenant, e.username, e.password.value);
      if id in db.defs {
        SavedAttachDoes(db, id, e, i, env);
      } else {
        SavedNowhere(db, id, login);
      }
    }
  }

  lemma SavedAttachDoes(db: Db, id: nat, e: Entry, i: nat, env: Env)
    requires Valid(db) && IsSaved(db, id, e, i, env)
    ensures AttachEffect(db, Attached(db, id, e, i, env), id, e, i, env)
  {
    var login := Login(e.connector, e.tenant, e.username, e.password.value);
    var db1 := Upserted(db, id, login);
    UpsertDoes(db, id, login);
    SavedLogin(db, id, e);
    if env.ok(i, Reread) {
      var c := ConnOf(db1, id);
      StaleAfterSaving(db, db1, id, e, i, env, c);
      if IsCalled(db, id, e, i, env) {
        CalledDoes(db, db1, c, id, env.fetch(i), env.now(i), env.health(i));
        RefreshKeepsLogin(db1, c, id, e, env.fetch(i), env.now(i), env.health(i));
        StampsConn(db1, c, id, env.fetch(i), env.now(i), env.health(i));
        if env.health(i).stamp {
          MarkedSinceSaving(db, db1, Attached(db, id, e, i, env), id, login, env.fetch(i), env.now(i));
        }
      }
    }
  }

  // ----- the whole file -----

  /** The last valid entry of a name that can log in. */
  function LastUsable(entries: seq<Entry>, name: string): (r: Option<Entry>)
    ensures r.Some? ==> IsValidNamed(r.value, name) && r.value.connector != "" && Usable(r.value)
    decreases |entries|
  {
    if entries == [] then None
    else
      var n := |entries| - 1;
      var e := entries[n];
      if IsValidNamed(e, name) && e.connector != "" && Usable(e) then Some(e) else LastUsable(entries[..n], name)
  }

  /** The connections of the bill and their logins are the same. */
  ghost predicate LoginsKept(a: Db, b: Db, id: nat) {
    && (forall c :: c in a.conns && a.conns[c].definition == id ==>
          c in b.conns && b.conns[c].definition == id && b.conns[c].login == a.conns[c].login)
    && (forall c :: c in b.conns && b.conns[c].definition == id ==> c in a.conns && a.conns[c].definition == id)
  }

  /** The bill logs in as the file says: with its last entry that can, or as before where it has none. */
  ghost predicate LoginFollows(a: Db, b: Db, id: nat, entries: seq<Entry>, name: string) {
    var last := LastUsable(entries, name);
    if last.Some? then LogsInWith(b, id, last.value) else LoginsKept(a, b, id)
  }

  ghost predicate LoginsFollow(a: Db, b: Db, entries: seq<Entry>) {
    forall id :: id in b.defs && b.defs[id].managed ==> LoginFollows(a, b, id, entries, b.defs[id].name)
  }

  /** What a written entry does to the connections. */
  lemma FollowUpConns(db: Db, id: nat, plan: Plan, e: Entry, i: nat, env: Env)
    requires Valid(db) && InRange(plan) && id in db.defs && Calm(env)
    ensures var b := FollowUp(db, id, plan, e, i, env);
            if e.connector != "" && Usable(e) then LogsInWith(b, id, e) else b.conns == db.conns
  {
    if e.connector != "" {
      AttachDoes(db, id, e, i, env);
    } else {
      GeneratedFollows(db, id, Written(Window(plan, env.today, env.lookahead), env.rowsFail(i)));
    }
  }

  lemma NewEntryConns(db: Db, e: Entry, i: nat, env: Env)
    requires Valid(db) && Calm(env) && FromEntry(e).Some? && FitsInteger(e.amountCents) && Named(db, e.name) == {}
    ensures var b := EntryDone(db, e, i, env);
            if e.connector != "" && Usable(e) then LogsInWith(b, db.nextDef, e) else b.conns == db.conns
  {
    NewEntryIs(db, e, i, env);
    var def := FromEntry(e).value.(managed := true);
    CreateKeepsValid(db, def);
    FollowUpConns(Created(db, def), db.nextDef, def.plan, e, i, env);
  }

  lemma OldEntryConns(db: Db, e: Entry, i: nat, env: Env, id: nat)
    requires Valid(db) && Calm(env) && FromEntry(e).Some? && FitsInteger(e.amountCents)
    requires Named(db, e.name) == {id} && db.defs[id].managed
    ensures var b := EntryDone(db, e, i, env);
            if e.connector != "" && Usable(e) then LogsInWith(b, id, e) else b.conns == db.conns
  {
    OldEntryIs(db, e, i, env, id);
    var def' := Incoming(FromEntry(e).value, e, db.defs[id]);
    UpdateKeepsValid(db, id, def');
    FollowUpConns(UpdatedBootstrap(db, id, def'), id, FromEntry(e).value.plan, e, i, env);
  }

  lemma WrittenConns(db: Db, file: seq<Entry>, e: Entry, i: nat, env: Env, id: nat)
    requires Valid(db) && Alone(db, file) && Seen(file, e.name) && Calm(env)
    requires FromEntry(e).Some? && FitsInteger(e.amountCents) && IsRowOf(db, EntryDone(db, e, i, env), id, e.name)
    ensures var b := EntryDone(db, e, i, env);
            if e.connector != "" && Usable(e) then LogsInWith(b, id, e) else b.conns == db.conns
  {
    if id in db.defs {
      assert Named(db, e.name) == {id};
      OldEntryConns(db, e, i, env, id);
    } else {
      assert Named(db, e.name) == {};
      NewEntryConns(db, e, i, env);
      EntryInserts(db, e, i, env);
      assert id == db.nextDef;
    }
  }

  /** Rows of other names keep their connections. */
  lemma OtherLogins(a: Db, b: Db, c: Db, entries: seq<Entry>, id: nat, d: nat, name: string)
    requires entries != [] && d != id && OnlyTouches(b, c, id) && !IsValidNamed(entries[|entries| - 1], name)
    requires LoginFollows(a, b, d, entries[..|entries| - 1], name)
    ensures LoginFollows(a, c, d, entries, name)
  {
    if HasConn(b, d) {
      var k :| k in b.conns && b.conns[k].definition == d;
      assert k in c.conns && c.conns[k].definition == d;
    }
  }

  /** The row written: with a new login, or with those it had. */
  lemma OwnLogin(a: Db, b: Db, c: Db, entries: seq<Entry>, id: nat)
    requires entries != [] && Valid(a) && Valid(b) && Kept(a, b) && AllThere(b, entries[..|entries| - 1])
    requires var e := entries[|entries| - 1];
             && IsValidNamed(e, e.name)
             && (if id in b.defs then LoginFollows(a, b, id, entries[..|entries| - 1], e.name) else Free(b, e.name))
             && if e.connector != "" && Usable(e) then LogsInWith(c, id, e) else c.conns == b.conns
    ensures LoginFollows(a, c, id, entries, entries[|entries| - 1].name)
  {
    var e, init := entries[|entries| - 1], entries[..|entries| - 1];
    if !(e.connector != "" && Usable(e)) && id !in b.defs {
      FreeMeansUnseen(b, init, e.name);
      UnseenIsUnusable(init, e.name);
      assert id !in a.defs;
    }
  }

  lemma {:induction false} UnseenIsUnusable(entries: seq<Entry>, name: string)
    requires !Seen(entries, name)
    ensures LastUsable(entries, name) == None
    decreases |entries|
  {
    if entries == [] {
    } else {
      SeenPrefix(entries, name);
      UnseenIsUnusable(entries[..|entries| - 1], name);
    }
  }

  lemma SkippedLogins(a: Db, b: Db, entries: seq<Entry>)
    requires entries != [] && Skippable(b, entries[|entries| - 1]) && LoginsFollow(a, b, entries[..|entries| - 1])
    ensures LoginsFollow(a, b, entries)
  {
    forall id | id in b.defs && b.defs[id].managed
      ensures LoginFollows(a, b, id, entries, b.defs[id].name)
    {
      assert LoginFollows(a, b, id, entries[..|entries| - 1], b.defs[id].name);
    }
  }

  lemma WrittenLogins(a: Db, b: Db, c: Db, entries: seq<Entry>, id: nat)
    requires entries != [] && Valid(a) && Valid(b) && Kept(a, b) && AllThere(b, entries[..|entries| - 1])
    requires LoginsFollow(a, b, entries[..|entries| - 1])
    requires var e := entries[|entries| - 1];
             && IsValidNamed(e, e.name) && IsRowOf(b, c, id, e.name) && OthersDiffer(b, c, id, e.name)
             && if e.connector != "" && Usable(e) then LogsInWith(c, id, e) else c.conns == b.conns
    ensures LoginsFollow(a, c, entries)
  {
    var e, init := entries[|entries| - 1], entries[..|entries| - 1];
    forall d | d in c.defs && c.defs[d].managed
      ensures LoginFollows(a, c, d, entries, c.defs[d].name)
    {
      if d == id {
        assert id in b.defs ==> LoginFollows(a, b, id, init, e.name);
        OwnLogin(a, b, c, entries, id);
      } else {
        assert LoginFollows(a, b, d, init, b.defs[d].name);
        OtherLogins(a, b, c, entries, id, d, c.defs[d].name);
      }
    }
  }

  lemma {:induction false} EntriesLogins(db: Db, entries: seq<Entry>, file: seq<Entry>, env: Env)
    requires Valid(db) && Alone(db, file) && Calm(env) && Fits(entries) && entries <= file
    ensures LoginsFollow(db, EntriesDone(db, entries, env), entries)
    decreases |entries|
  {
    if entries == [] {
    } else {
      var n := |entries| - 1;
      var e, mid := entries[n], EntriesDone(db, entries[..n], env);
      EntriesLogins(db, entries[..n], file, env);
      EntriesOutcome(db, entries[..n], file, env);
      if FromEntry(e).None? {
        SkippedLogins(db, mid, entries);
      } else {
        assert IsValidNamed(file[n], e.name);
        NextLogins(db, mid, entries, file, n, env);
      }
    }
  }

  lemma NextLogins(db: Db, mid: Db, entries: seq<Entry>, file: seq<Entry>, n: nat, env: Env)
    requires n + 1 == |entries| && FromEntry(entries[n]).Some? && FitsInteger(entries[n].amountCents)
    requires Valid(db) && Valid(mid) && Alone(mid, file) && Calm(env) && Seen(file, entries[n].name)
    requires Kept(db, mid) && AllThere(mid, entries[..n]) && LoginsFollow(db, mid, entries[..n])
    ensures LoginsFollow(db, EntryDone(mid, entries[n], n, env), entries)
  {
    var e := entries[n];
    if UiName(mid, e.name) {
      UiNameIsSkippable(mid, file, e);
      UiEntryIsSkipped(mid, e, n, env);
      SkippedLogins(db, mid, entries);
    } else {
      var id := ManagedEntry(mid, file, e, n, env);
      var next := EntryDone(mid, e, n, env);
      RowOfIsAlone(mid, next, file, id, e.name);
      WrittenConns(mid, file, e, n, env, id);
      WrittenLogins(db, mid, next, entries, id);
    }
  }

  /** The removal pass takes connections away only with their bills. */
  lemma RemovalKeepsLogins(a: Db, b: Db, entries: seq<Entry>, ids: set<nat>)
    requires LoginsFollow(a, b, entries)
    ensures LoginsFollow(a, Removed(b, ids), entries)
  {
    var c := Removed(b, ids);
    forall id | id in c.defs && c.defs[id].managed
      ensures LoginFollows(a, c, id, entries, c.defs[id].name)
    {
      assert LoginFollows(a, b, id, entries, b.defs[id].name);
      if HasConn(b, id) {
        var k :| k in b.conns && b.conns[k].definition == id;
        assert k in c.conns && c.conns[k].definition == id;
      }
    }
  }

  /**
   The logins after a reconciliation without store failures, each file-managed
   bill of the file being the only one of its name: a bill logs in with the
   connector, tenant, user name and password of the last valid entry of its name
   that has them, and where there is none its connection, if any, is as before.
   */
  lemma ReconciledLogins(db: Db, entries: seq<Entry>, env: Env)
    requires Valid(db) && Alone(db, entries) && Calm(env) && Fits(entries)
    ensures LoginsFollow(db, Reconciled(db, entries, env), entries)
  {
    EntriesLogins(db, entries, entries, env);
    var done := EntriesDone(db, entries, env);
    RemovalKeepsLogins(db, done, entries, Doomed(done, entries, env));
  }
}
