/**
 What a refresh pass does to a bill's amount, whatever the bill's plan; and so
 what a connection does that its bills.json entry has left behind.
 */
module Leftover {
  import opened Ledger
  import opened World
  import opened Refresh
  import opened Handlers
  import opened LastKnown

  predicate DistinctRows(rows: seq<Row>) {
    forall i, j :: 0 <= i < j < |rows| ==> rows[i].conn != rows[j].conn
  }

  /** Row `k` is the bill's connection, it is stale, the vendor answers, and the amount can be written. */
  predicate Sets(rows: seq<Row>, k: nat, answers: Answers, id: nat) {
    && k < |rows| && rows[k].row.definition == id
    && !Fresh(rows[k].row.syncedAt, answers.now(k), answers.interval)
    && Writes(answers.fetch(k), answers.health(k))
  }

  predicate Writes(answer: Fetched, health: Health) {
    answer.Snapshot? && health.price && FitsInteger(answer.amountCents)
  }

  lemma RecordedOnBill(db: Db, r: Report, health: Health)
    ensures var b := Recorded(db, r, health);
            b.defs == if r.definition in db.defs && health.price && FitsInteger(r.amountCents)
                      then db.defs[r.definition := db.defs[r.definition].(amountCents := r.amountCents)] else db.defs
  {}

  lemma RefreshOnBill(db: Db, conn: nat, definition: nat, answer: Fetched, now: int, health: Health, id: nat)
    requires id in db.defs
    ensures var b := RefreshedNow(db, conn, definition, answer, now, health);
            && id in b.defs
            && b.defs[id] == if definition == id && Writes(answer, health)
                             then db.defs[id].(amountCents := answer.amountCents) else db.defs[id]
  {
    if answer.Snapshot? {
      RecordedOnBill(db, Report(definition, answer.amountCents, answer.due), health);
    }
  }

  ghost predicate OneRowOf(rows: seq<Row>, id: nat) {
    forall i, j :: 0 <= i < |rows| && 0 <= j < |rows| ==>
      rows[i].row.definition == id && rows[j].row.definition == id ==> i == j
  }

  lemma ListingHasOneRow(db: Db, rows: seq<Row>, id: nat)
    requires Valid(db) && IsListing(db, rows) && DistinctRows(rows)
    ensures OneRowOf(rows, id)
  {
    forall i, j | 0 <= i < |rows| && 0 <= j < |rows| && rows[i].row.definition == id && rows[j].row.definition == id
      ensures i == j
    {
      assert rows[i].conn == rows[j].conn;
    }
  }

  /** The bill's row: the amount some row of the pass set, or the same. */
  ghost predicate TookAnswer(was: Definition, now: Definition, rows: seq<Row>, answers: Answers, id: nat) {
    && (forall k: nat :: Sets(rows, k, answers, id) ==> now == was.(amountCents := answers.fetch(k).amountCents))
    && ((forall k: nat :: !Sets(rows, k, answers, id)) ==> now == was)
  }

  lemma SetsOneMore(rows: seq<Row>, answers: Answers, id: nat, k: nat)
    requires rows != []
    ensures var n := |rows| - 1;
            Sets(rows, k, answers, id) <==>
              if k == n then Sets(rows, n, answers, id) else Sets(rows[..n], k, answers, id)
  {}

  /** One more row of the listing. */
  lemma TookOneMore(was: Definition, mid: Definition, now: Definition, rows: seq<Row>, answers: Answers, id: nat)
    requires rows != [] && OneRowOf(rows, id) && TookAnswer(was, mid, rows[..|rows| - 1], answers, id)
    requires var n := |rows| - 1;
             now == if Sets(rows, n, answers, id) then mid.(amountCents := answers.fetch(n).amountCents) else mid
    ensures TookAnswer(was, now, rows, answers, id)
  {
    var n := |rows| - 1;
    forall k: nat
      ensures Sets(rows, k, answers, id) <==>
                if k == n then Sets(rows, n, answers, id) else Sets(rows[..n], k, answers, id)
      ensures Sets(rows, n, answers, id) ==> !Sets(rows[..n], k, answers, id)
    {
      SetsOneMore(rows, answers, id, k);
    }
  }

  /** Over a pass a bill's row is the same but for the amount, which the answer to its connection sets. */
  lemma {:induction false} PassOnBill(db: Db, rows: seq<Row>, answers: Answers, id: nat)
    requires id in db.defs && OneRowOf(rows, id)
    ensures id in Passed(db, rows, answers).defs
    ensures TookAnswer(db.defs[id], Passed(db, rows, answers).defs[id], rows, answers, id)
    decreases |rows|
  {
    if rows == [] {
    } else {
      var n := |rows| - 1;
      var mid := Passed(db, rows[..n], answers);
      PassOnBill(db, rows[..n], answers, id);
      RefreshOnBill(mid, rows[n].conn, rows[n].row.definition, answers.fetch(n), answers.now(n), answers.health(n), id);
      TookOneMore(db.defs[id], mid.defs[id], Passed(db, rows, answers).defs[id], rows, answers, id);
    }
  }

  /** Only the amount may differ, and it does if and only if an answer set another one. */
  ghost predicate AmountFromAnswers(a: Db, b: Db, rows: seq<Row>, answers: Answers, id: nat)
    requires id in a.defs
  {
    && id in b.defs && b.defs[id] == a.defs[id].(amountCents := b.defs[id].amountCents)
    && (b.defs[id].amountCents != a.defs[id].amountCents <==>
          exists k: nat :: Sets(rows, k, answers, id) && answers.fetch(k).amountCents != a.defs[id].amountCents)
  }

  /**
   A refresh pass changes a bill's amount if and only if the bill has a listed
   connection that is stale, whose vendor answers with another amount that can
   be written. Its plan and who manages it do not matter.
   */
  lemma PassChangesAmountIff(db: Db, rows: seq<Row>, answers: Answers, id: nat)
    requires Valid(db) && IsListing(db, rows) && DistinctRows(rows) && id in db.defs
    ensures AmountFromAnswers(db, Passed(db, rows, answers), rows, answers, id)
  {
    ListingHasOneRow(db, rows, id);
    PassOnBill(db, rows, answers, id);
    if k: nat :| Sets(rows, k, answers, id) {
      assert forall j: nat :: Sets(rows, j, answers, id) ==> j == k;
    }
  }

  /**
   A connection outlives its connector entry: after any calls that do not
   delete its bill, an edit to a schedule among them, a pass that lists it sets
   the bill's amount whenever the row is stale and the vendor answers.
   */
  lemma LeftoverSetsAmount(db: Db, calls: seq<Call>, conn: nat, rows: seq<Row>, answers: Answers, k: nat)
    requires Valid(db) && conn in db.conns && Delete(db.conns[conn].definition) !in calls
    requires var late := Run(db, calls);
             IsListing(late, rows) && DistinctRows(rows) && k < |rows| && rows[k].conn == conn
    ensures var id, late := db.conns[conn].definition, Run(db, calls);
            && id in late.defs && id in Passed(late, rows, answers).defs
            && (!Fresh(late.conns[conn].syncedAt, answers.now(k), answers.interval)
                && Writes(answers.fetch(k), answers.health(k)) ==>
                  Passed(late, rows, answers).defs[id] == late.defs[id].(amountCents := answers.fetch(k).amountCents))
  {
    var id, late := db.conns[conn].definition, Run(db, calls);
    RunKeepsValid(db, calls);
    ConnectionOutlives(db, calls, conn);
    ListingHasOneRow(late, rows, id);
    PassOnBill(late, rows, answers, id);
    assert rows[k].row == late.conns[conn];
    if !Fresh(late.conns[conn].syncedAt, answers.now(k), answers.interval)
       && Writes(answers.fetch(k), answers.health(k)) {
      assert Sets(rows, k, answers, id);
    }
  }
}
