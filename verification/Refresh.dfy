/**
 A vendor refresh (internal/scheduler/scheduler.go) and instance generation as
 functions of the tables, for calls that nothing else interleaves with.
 */
module Refresh {
  import opened Basics
  import opened Civil
  import opened Ledger
  import opened World

  /** EnsureInstance for each date in turn. */
  function Generated(db: Db, id: nat, dates: seq<Date>): Db
    decreases |dates|
  {
    if dates == [] then db else Ensured(Generated(db, id, dates[..|dates| - 1]), id, dates[|dates| - 1])
  }

  /** Which of the store calls of a refresh go through. */
  datatype Health = Health(price: bool, place: bool, stamp: bool)

  predicate Fresh(syncedAt: Option<int>, now: int, interval: int) {
    syncedAt.Some? && now - syncedAt.value < interval
  }

  /** What is written of a successful answer, before the stamp. */
  function Recorded(db: Db, r: Report, health: Health): Db {
    var noted := Noted(db, r);
    var priced := if health.price then Repriced(noted, r.definition, r.amountCents) else noted;
    if r.amountCents > 0 && health.place then Ensured(priced, r.definition, r.due) else priced
  }

  function RefreshedNow(db: Db, conn: nat, definition: nat, answer: Fetched, now: int, health: Health): Db {
    match answer
    case Failed(reason) => if health.stamp then Synced(db, conn, now, "", Some(reason)) else db
    case Snapshot(amountCents, due, account) =>
      var done := Recorded(db, Report(definition, amountCents, due), health);
      if health.stamp then Synced(done, conn, now, account, None) else done
  }

  /** The row is the caller's copy of it; only its sync time and definition are used. */
  function RefreshedIfStale(db: Db, conn: nat, row: Connection, answer: Fetched, now: int, interval: int,
                            health: Health): Db {
    if Fresh(row.syncedAt, now, interval) then db
    else RefreshedNow(db, conn, row.definition, answer, now, health)
  }
}
