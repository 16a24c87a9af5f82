/**
 A refresh pass of the running service that nothing interleaves with: it lists
 the connections, and skips or refreshes each; its tables are those of `Passed`.
 */
module WholePass {
  import opened Ledger
  import opened World
  import opened Refresh
  import opened Handlers
  import opened Undisturbed

  /** What the listing returns: each connection with its row. */
  function RowsOf(db: Db, order: seq<nat>): (rows: seq<Row>)
    requires forall k :: 0 <= k < |order| ==> order[k] in db.conns
    ensures |rows| == |order| && forall k :: 0 <= k < |order| ==> rows[k] == Row(order[k], db.conns[order[k]])
  {
    if order == [] then []
    else RowsOf(db, order[..|order| - 1]) + [Row(order[|order| - 1], db.conns[order[|order| - 1]])]
  }

  /** What the worker holds of the rows from the `n`-th on. */
  predicate HoldsRows(held: seq<HeldConn>, rows: seq<Row>, n: nat) {
    && n <= |rows| && |held| == |rows| - n
    && forall k :: n <= k < |rows| ==> held[k - n] == HeldConn(rows[k].conn, rows[k].row.definition)
  }

  /** The steps for one row: skip it while it is fresh, else refresh it. */
  function RowSteps(w: nat, r: Row, answer: Fetched, now: int, interval: int, health: Health): seq<Step> {
    if Fresh(r.row.syncedAt, now, interval) then [Skip(w)] else RefreshSteps(w, answer, now, health)
  }

  function PassSteps(w: nat, rows: seq<Row>, n: nat, answers: Answers): seq<Step>
    requires n <= |rows|
    decreases n
  {
    if n == 0 then []
    else
      PassSteps(w, rows, n - 1, answers)
      + RowSteps(w, rows[n - 1], answers.fetch(n - 1), answers.now(n - 1), answers.interval, answers.health(n - 1))
  }

  /** The pass has come to row `n`. */
  ghost predicate PassedTo(db: Db, s: World, w: nat, rows: seq<Row>, n: nat, answers: Answers)
    requires n <= |rows|
  {
    && s.db == Passed(db, rows[..n], answers)
    && w in s.workers && s.workers[w].ListedConns? && HoldsRows(s.workers[w].conns, rows, n)
  }

  /** The worker holds the connections listed, each with its bill. */
  predicate HoldsListed(db: Db, t: World, w: nat, order: seq<nat>)
    requires forall k :: 0 <= k < |order| ==> order[k] in db.conns
  {
    && t.db == db && w in t.workers && t.workers[w].ListedConns? && |t.workers[w].conns| == |order|
    && forall k :: 0 <= k < |order| ==> t.workers[w].conns[k] == HeldConn(order[k], db.conns[order[k]].definition)
  }

  lemma ListedAre(s: World, w: nat, order: seq<nat>, lookahead: int)
    requires forall k :: 0 <= k < |order| ==> order[k] in s.db.conns
    ensures HoldsListed(s.db, After(s, ListConns(w, order), lookahead), w, order)
  {}

  lemma ListingHolds(db: Db, t: World, w: nat, order: seq<nat>, answers: Answers)
    requires forall k :: 0 <= k < |order| ==> order[k] in db.conns
    requires HoldsListed(db, t, w, order)
    ensures PassedTo(db, t, w, RowsOf(db, order), 0, answers)
  {
    NothingPassed(db, RowsOf(db, order), answers);
  }

  lemma NothingPassed(db: Db, rows: seq<Row>, answers: Answers)
    ensures Passed(db, rows[..0], answers) == db
  {}

  lemma RowDone(db: Db, s: World, w: nat, rows: seq<Row>, n: nat, answers: Answers, lookahead: int)
    requires n < |rows| && PassedTo(db, s, w, rows, n, answers)
    ensures var steps := RowSteps(w, rows[n], answers.fetch(n), answers.now(n), answers.interval, answers.health(n));
            PassedTo(db, Reach(s, steps, lookahead), w, rows, n + 1, answers)
  {
    assert rows[..n + 1][..n] == rows[..n];
    var held := s.workers[w].conns;
    assert HoldsRows(held[1..], rows, n + 1);
    if Fresh(rows[n].row.syncedAt, answers.now(n), answers.interval) {
      ReachOne(s, Skip(w), lookahead);
    } else {
      RefreshComputesRefreshedNow(s, w, answers.fetch(n), answers.now(n), answers.health(n), lookahead);
    }
  }

  lemma {:induction false} PassedSoFar(db: Db, s: World, w: nat, rows: seq<Row>, n: nat, answers: Answers,
                                       lookahead: int)
    requires n <= |rows| && PassedTo(db, s, w, rows, 0, answers)
    ensures PassedTo(db, Reach(s, PassSteps(w, rows, n, answers), lookahead), w, rows, n, answers)
    decreases n
  {
    if n == 0 {
    } else {
      var steps := RowSteps(w, rows[n - 1], answers.fetch(n - 1), answers.now(n - 1),
                            answers.interval, answers.health(n - 1));
      PassedSoFar(db, s, w, rows, n - 1, answers, lookahead);
      RowDone(db, Reach(s, PassSteps(w, rows, n - 1, answers), lookahead), w, rows, n - 1, answers, lookahead);
      ReachConcat(s, PassSteps(w, rows, n - 1, answers), steps, lookahead);
    }
  }

  /** Listing and going through the list computes `Passed` on the rows listed. */
  lemma PassComputesPassed(s: World, w: nat, order: seq<nat>, answers: Answers, lookahead: int)
    requires forall k :: 0 <= k < |order| ==> order[k] in s.db.conns
    ensures var rows := RowsOf(s.db, order);
            Reach(s, [ListConns(w, order)] + PassSteps(w, rows, |rows|, answers), lookahead).db
            == Passed(s.db, rows, answers)
  {
    var rows := RowsOf(s.db, order);
    ReachFirst(s, ListConns(w, order), PassSteps(w, rows, |rows|, answers), lookahead);
    ListedAre(s, w, order, lookahead);
    ListingHolds(s.db, After(s, ListConns(w, order), lookahead), w, order, answers);
    PassedSoFar(s.db, After(s, ListConns(w, order), lookahead), w, rows, |rows|, answers, lookahead);
    assert rows[..|rows|] == rows;
  }
}
