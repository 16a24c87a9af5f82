/**
 What the store calls of a reconciliation or a refresh leave alone. All of them
 work on one definition: its row, its instances, its connection.
 */
module Footprint {
  import opened Basics
  import opened Civil
  import opened Schedule
  import opened Ledger
  import opened World
  import opened Entries
  import opened Refresh
  import opened Handlers
  import opened Reconcile

  /** Rows of every definition but `id` are the same. */
  ghost predicate OnlyTouches(a: Db, b: Db, id: nat) {
    && (forall d :: d != id ==> (d in a.defs <==> d in b.defs) && (d in a.defs ==> b.defs[d] == a.defs[d]))
    && (forall i :: i in a.instances && a.instances[i].definition != id ==>
          i in b.instances && b.instances[i] == a.instances[i])
    && (forall i :: i in b.instances && b.instances[i].definition != id ==>
          i in a.instances && b.instances[i] == a.instances[i])
    && (forall c :: c in a.conns && a.conns[c].definition != id ==> c in b.conns && b.conns[c] == a.conns[c])
    && (forall c :: c in b.conns && b.conns[c].definition != id ==> c in a.conns && b.conns[c] == a.conns[c])
  }

  /** Every instance is still there, unchanged. */
  ghost predicate RowsStay(a: Db, b: Db) {
    forall i :: i in a.instances ==> i in b.instances && b.instances[i] == a.instances[i]
  }

  /** Only the definition's instances, connection and amount may differ. */
  ghost predicate Follows(a: Db, b: Db, id: nat) {
    && Valid(b) && OnlyTouches(a, b, id) && RowsStay(a, b)
    && (id in a.defs <==> id in b.defs)
    && (id in a.defs ==> b.defs[id] == a.defs[id].(amountCents := b.defs[id].amountCents))
    && b.nextDef == a.nextDef && ReportsOf(a, b, id)
  }

  /** What was reported meanwhile is about `id`. */
  ghost predicate ReportsOf(a: Db, b: Db, id: nat) {
    && a.reports <= b.reports
    && forall k :: |a.reports| <= k < |b.reports| ==> b.reports[k].definition == id
  }

  lemma TouchesTransitive(a: Db, b: Db, c: Db, id: nat)
    requires OnlyTouches(a, b, id) && OnlyTouches(b, c, id) && RowsStay(a, b) && RowsStay(b, c)
    ensures OnlyTouches(a, c, id) && RowsStay(a, c)
  {}

  lemma FollowsTransitive(a: Db, b: Db, c: Db, id: nat)
    requires Follows(a, b, id) && Follows(b, c, id)
    ensures Follows(a, c, id)
  {
    TouchesTransitive(a, b, c, id);
  }

  lemma EnsuredTouches(db: Db, id: nat, due: Date)
    requires InstancesValid(db)
    ensures OnlyTouches(db, Ensured(db, id, due), id) && RowsStay(db, Ensured(db, id, due))
  {
    var b := Ensured(db, id, due);
    if id in db.defs && !HasRow(db, id, due) {
      OneMoreTouches(db, b, db.nextInst, id);
    } else {
      assert b.instances == db.instances && b.defs == db.defs && b.conns == db.conns;
    }
  }

  lemma OneMoreTouches(a: Db, b: Db, i: nat, id: nat)
    requires a.defs == b.defs && a.conns == b.conns && i !in a.instances
    requires i in b.instances && b.instances[i].definition == id && b.instances == a.instances[i := b.instances[i]]
    ensures OnlyTouches(a, b, id) && RowsStay(a, b)
  {}

  lemma EnsuredFollows(db: Db, id: nat, due: Date)
    requires Valid(db)
    ensures Follows(db, Ensured(db, id, due), id) && Ensured(db, id, due).defs == db.defs
    ensures Ensured(db, id, due).reports == db.reports
  {
    EnsureKeepsValid(db, id, due);
    EnsuredTouches(db, id, due);
  }

  lemma RepricedFollows(db: Db, id: nat, amountCents: int)
    requires Valid(db)
    ensures Follows(db, Repriced(db, id, amountCents), id)
  {
    RepriceKeepsValid(db, id, amountCents);
  }

  lemma NotedFollows(db: Db, r: Report, id: nat)
    requires Valid(db) && r.definition == id
    ensures Follows(db, Noted(db, r), id)
  {}

  lemma UpsertedFollows(db: Db, id: nat, login: Login)
    requires Valid(db)
    ensures Follows(db, Upserted(db, id, login), id) && Upserted(db, id, login).defs == db.defs
    ensures Upserted(db, id, login).instances == db.instances
    ensures id in db.defs ==> HasConn(Upserted(db, id, login), id)
  {
    UpsertKeepsValid(db, id, login);
    var db' := Upserted(db, id, login);
    if id in db.defs {
      if HasConn(db, id) {
        var c :| c in db.conns && db.conns[c].definition == id;
        assert c in db'.conns && db'.conns[c].definition == id;
      } else {
        assert db.nextConn in db'.conns && db'.conns[db.nextConn].definition == id;
      }
    }
  }

  lemma SyncedFollows(db: Db, conn: nat, now: int, account: string, error: Option<string>, id: nat)
    requires Valid(db) && (conn in db.conns ==> db.conns[conn].definition == id)
    ensures Follows(db, Synced(db, conn, now, account, error), id)
    ensures Synced(db, conn, now, account, error).defs == db.defs
    ensures Synced(db, conn, now, account, error).instances == db.instances
  {
    SyncedKeepsValid(db, conn, now, account, error);
  }

  lemma {:induction false} GeneratedFollows(db: Db, id: nat, dates: seq<Date>)
    requires Valid(db)
    ensures Follows(db, Generated(db, id, dates), id) && Generated(db, id, dates).defs == db.defs
    ensures id in db.defs ==> forall d: Date :: d in dates ==> HasRow(Generated(db, id, dates), id, d)
    ensures Generated(db, id, dates).conns == db.conns && Generated(db, id, dates).reports == db.reports
    decreases |dates|
  {
    if dates == [] {
    } else {
      var init, last := dates[..|dates| - 1], dates[|dates| - 1];
      GeneratedFollows(db, id, init);
      var mid := Generated(db, id, init);
      EnsuredFollows(mid, id, last);
      FollowsTransitive(db, mid, Ensured(mid, id, last), id);
      if id in db.defs {
        forall d: Date | d in dates
          ensures HasRow(Ensured(mid, id, last), id, d)
        {
          if d in init {
            RowStays(mid, Ensured(mid, id, last), id, d);
          } else {
            EnsuredHasRow(mid, id, last);
          }
        }
      }
    }
  }

  lemma RowStays(a: Db, b: Db, id: nat, d: Date)
    requires RowsStay(a, b) && HasRow(a, id, d)
    ensures HasRow(b, id, d)
  {
    var i :| i in a.instances && SameRow(a.instances[i], Instance(id, d, false));
    assert i in b.instances && SameRow(b.instances[i], Instance(id, d, false));
  }

  /** Generating what is there already changes no table. */
  lemma {:induction false} GeneratedAgain(db: Db, id: nat, dates: seq<Date>)
    requires forall d: Date :: d in dates ==> HasRow(db, id, d)
    ensures Generated(db, id, dates).instances == db.instances && Generated(db, id, dates).defs == db.defs
    decreases |dates|
  {
    if dates == [] {
    } else {
      var init, last := dates[..|dates| - 1], dates[|dates| - 1];
      assert forall d: Date :: d in init ==> d in dates;
      GeneratedAgain(db, id, init);
      assert last in dates;
      SameInstancesSameRows(db, Generated(db, id, init), id, last);
    }
  }

  lemma SameInstancesSameRows(a: Db, b: Db, id: nat, d: Date)
    requires a.instances == b.instances
    ensures HasRow(a, id, d) == HasRow(b, id, d)
  {}

  lemma RecordedFollows(db: Db, r: Report, health: Health)
    requires Valid(db)
    ensures Follows(db, Recorded(db, r, health), r.definition)
  {
    var id := r.definition;
    var noted := Noted(db, r);
    NotedFollows(db, r, id);
    var priced := if health.price then Repriced(noted, id, r.amountCents) else noted;
    if health.price {
      RepricedFollows(noted, id, r.amountCents);
      FollowsTransitive(db, noted, priced, id);
    }
    if r.amountCents > 0 && health.place {
      EnsuredFollows(priced, id, r.due);
      FollowsTransitive(db, priced, Ensured(priced, id, r.due), id);
    }
  }

  lemma RecordedKeepsConns(db: Db, r: Report, health: Health)
    ensures Recorded(db, r, health).conns == db.conns
  {}

  lemma RefreshedFollows(db: Db, conn: nat, id: nat, answer: Fetched, now: int, health: Health)
    requires Valid(db) && (conn in db.conns ==> db.conns[conn].definition == id)
    ensures Follows(db, RefreshedNow(db, conn, id, answer, now, health), id)
    ensures answer.Failed? ==>
              RefreshedNow(db, conn, id, answer, now, health).defs == db.defs
              && RefreshedNow(db, conn, id, answer, now, health).instances == db.instances
  {
    match answer
    case Failed(reason) => SyncedFollows(db, conn, now, "", Some(reason), id);
    case Snapshot(amountCents, due, account) =>
      var r := Report(id, amountCents, due);
      var done := Recorded(db, r, health);
      RecordedFollows(db, r, health);
      RecordedKeepsConns(db, r, health);
      SyncedFollows(done, conn, now, account, None, id);
      if health.stamp {
        FollowsTransitive(db, done, Synced(done, conn, now, account, None), id);
      }
  }

  lemma StaleFollows(db: Db, conn: nat, id: nat, answer: Fetched, now: int, interval: int, health: Health)
    requires Valid(db) && conn in db.conns && db.conns[conn].definition == id
    ensures var b := RefreshedIfStale(db, conn, db.conns[conn], answer, now, interval, health);
            Follows(db, b, id) && (answer.Failed? ==> b.defs == db.defs && b.instances == db.instances)
  {
    if Fresh(db.conns[conn].syncedAt, now, interval) {
      FollowsItself(db, id);
    } else {
      RefreshedFollows(db, conn, id, answer, now, health);
    }
  }

  lemma FollowsItself(db: Db, id: nat)
    requires Valid(db)
    ensures Follows(db, db, id)
  {}

  lemma AttachedFollows(db: Db, id: nat, e: Entry, i: nat, env: Env)
    requires Valid(db)
    ensures Follows(db, Attached(db, id, e, i, env), id)
    ensures env.fetch(i).Failed? || !Usable(e) ==>
              Attached(db, id, e, i, env).defs == db.defs && Attached(db, id, e, i, env).instances == db.instances
  {
    FollowsItself(db, id);
    if Usable(e) {
      var login := Login(e.connector, e.tenant, e.username, e.password.value);
      var db1 := Upserted(db, id, login);
      UpsertedFollows(db, id, login);
      if HasConn(db1, id) {
        var c := ConnOf(db1, id);
        var db2 := RefreshedIfStale(db1, c, db1.conns[c], env.fetch(i), env.now(i), env.interval, env.health(i));
        StaleFollows(db1, c, id, env.fetch(i), env.now(i), env.interval, env.health(i));
        FollowsTransitive(db, db1, db2, id);
      }
    }
  }

  /** Every due date of the entry's window has a row, when no insert fails. */
  ghost predicate HasWindow(db: Db, id: nat, plan: Plan, today: int, lookahead: int)
    requires InRange(plan)
  {
    forall d: Date :: d in Window(plan, today, lookahead) ==> HasRow(db, id, d)
  }

  lemma FollowUpFollows(db: Db, id: nat, plan: Plan, e: Entry, i: nat, env: Env)
    requires Valid(db) && InRange(plan)
    ensures var db' := FollowUp(db, id, plan, e, i, env);
            && Follows(db, db', id)
            && (e.connector == "" || env.fetch(i).Failed? || !Usable(e) ==> db'.defs == db.defs)
            && (e.connector != "" && env.fetch(i).Failed? ==> db'.instances == db.instances)
            && (e.connector == "" && env.rowsFail(i).None? && id in db.defs ==>
                  HasWindow(db', id, plan, env.today, env.lookahead))
  {
    if e.connector != "" {
      AttachedFollows(db, id, e, i, env);
    } else {
      GeneratedFollows(db, id, Written(Window(plan, env.today, env.lookahead), env.rowsFail(i)));
    }
  }
}
