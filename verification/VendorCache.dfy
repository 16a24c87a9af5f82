/**
 The staleness test in front of a vendor login (internal/scheduler/scheduler.go).
 One refresher runs at a time: the reconciliation at startup, then the loop. A
 login is a fetch; it is followed by a stamp of the time on the connection row.
 Everything else may touch the tables at any moment.
 */
module VendorCache {
  import opened Basics
  import opened Ledger
  import opened Refresh
  import opened Handlers
  import Reconcile

  /** A fetch from a vendor, successful or not. */
  datatype Attempt = Attempt(conn: nat, time: int)

  datatype Phase =
    | Idle
    | Passing(todo: seq<Row>)
    | Calling(conn: nat, todo: seq<Row>)

  datatype Cache = Cache(db: Db, now: int, phase: Phase, log: seq<Attempt>)

  datatype Step =
    | Wait(minutes: nat)
    | Other(call: Call)
    | List(order: seq<nat>)
    | Attach(id: nat, login: Login)
    | Check
    | Stamp(account: string, error: Option<string>, ok: bool)
    | Restart
    | Lost

  predicate Distinct(s: seq<nat>) {
    forall i, j :: 0 <= i < j < |s| ==> s[i] != s[j]
  }

  /** `ListAll` of the connections: each row once. */
  function ListStep(s: Cache, order: seq<nat>): Cache {
    if s.phase.Idle? && Distinct(order) && forall k :: 0 <= k < |order| ==> order[k] in s.db.conns
    then s.(phase := Passing(seq(|order|, k requires 0 <= k < |order| && order[k] in s.db.conns =>
           Row(order[k], s.db.conns[order[k]]))))
    else s
  }

  /** The reconciliation writes a connection, reads it back, and checks that one row. */
  ghost function AttachStep(s: Cache, id: nat, login: Login): Cache {
    if !s.phase.Idle? then s
    else
      var db := Upserted(s.db, id, login);
      if HasConn(db, id) then
        var c := Reconcile.ConnOf(db, id);
        s.(db := db, phase := Passing([Row(c, db.conns[c])]))
      else s.(db := db)
  }

  /** `RefreshVendorConnectionIfStale` on the next row. */
  function CheckStep(s: Cache, interval: int): Cache {
    if s.phase.Passing? && s.phase.todo != [] then
      var r := s.phase.todo[0];
      if Fresh(r.row.syncedAt, s.now, interval) then s.(phase := Passing(s.phase.todo[1..]))
      else s.(phase := Calling(r.conn, s.phase.todo[1..]), log := s.log + [Attempt(r.conn, s.now)])
    else s
  }

  /** The stamp of a fetch; if the store call fails the error is ignored and the pass goes on. */
  function StampStep(s: Cache, account: string, error: Option<string>, ok: bool): Cache {
    if s.phase.Calling? then
      var db := if ok then Synced(s.db, s.phase.conn, s.now, account, error) else s.db;
      s.(db := db, phase := Passing(s.phase.todo))
    else s
  }

  /** A restart, or the end of a pass, between fetches; `Lost` is one in the middle of a fetch. */
  ghost function After(s: Cache, step: Step, interval: int): Cache {
    match step
    case Wait(minutes) => s.(now := s.now + minutes)
    case Other(call) => if call.MarkSynced? then s else s.(db := Apply(s.db, call))
    case List(order) => ListStep(s, order)
    case Attach(id, login) => AttachStep(s, id, login)
    case Check => CheckStep(s, interval)
    case Stamp(account, error, ok) => StampStep(s, account, error, ok)
    case Restart => if s.phase.Calling? then s else s.(phase := Idle)
    case Lost => s.(phase := Idle)
  }

  ghost function Reach(s: Cache, steps: seq<Step>, interval: int): Cache
    decreases |steps|
  {
    if steps == [] then s else After(Reach(s, steps[..|steps| - 1], interval), steps[|steps| - 1], interval)
  }

  // ----- the invariant -----

  ghost predicate Spaced(log: seq<Attempt>, interval: int) {
    forall i, j :: 0 <= i < j < |log| && log[i].conn == log[j].conn ==> log[j].time - log[i].time >= interval
  }

  /** A sync time that accounts for every fetch of its connection. */
  ghost predicate Accounts(log: seq<Attempt>, conn: nat, syncedAt: Option<int>) {
    forall i :: 0 <= i < |log| && log[i].conn == conn ==> syncedAt.Some? && log[i].time <= syncedAt.value
  }

  ghost predicate LogOk(s: Cache, interval: int) {
    && Spaced(s.log, interval)
    && (forall i :: 0 <= i < |s.log| ==> s.log[i].time <= s.now && s.log[i].conn < s.db.nextConn)
  }

  /** Every row is stamped later than its fetches, but for the one being fetched. */
  ghost predicate StampsOk(s: Cache) {
    forall c :: c in s.db.conns && !(s.phase.Calling? && s.phase.conn == c) ==>
      Accounts(s.log, c, s.db.conns[c].syncedAt)
  }

  /** The rows left are distinct, account for their fetches, and have not been stamped since they were read. */
  ghost predicate TodoOk(s: Cache, todo: seq<Row>) {
    && (forall k :: 0 <= k < |todo| ==>
          todo[k].conn < s.db.nextConn && Accounts(s.log, todo[k].conn, todo[k].row.syncedAt))
    && (forall k :: 0 <= k < |todo| && todo[k].conn in s.db.conns ==>
          s.db.conns[todo[k].conn].syncedAt == todo[k].row.syncedAt)
    && (forall i, j :: 0 <= i < j < |todo| ==> todo[i].conn != todo[j].conn)
  }

  /** The last fetch is the one under way, and its row was stale then. */
  ghost predicate CallOk(s: Cache, conn: nat, interval: int) {
    && s.log != [] && s.log[|s.log| - 1].conn == conn
    && (conn in s.db.conns ==> !Fresh(s.db.conns[conn].syncedAt, s.log[|s.log| - 1].time, interval))
  }

  ghost predicate PhaseOk(s: Cache, interval: int) {
    match s.phase
    case Idle => true
    case Passing(todo) => TodoOk(s, todo)
    case Calling(conn, todo) =>
      conn < s.db.nextConn && CallOk(s, conn, interval) && TodoOk(s, todo) && forall k :: 0 <= k < |todo| ==>
        todo[k].conn != conn
  }

  ghost predicate Inv(s: Cache, interval: int) {
    Valid(s.db) && LogOk(s, interval) && StampsOk(s) && PhaseOk(s, interval)
  }

  // ----- steps -----

  /** No call but the stamp changes a sync time; ids of connections are not reused. */
  ghost predicate SyncTimesKept(a: Db, b: Db) {
    && a.nextConn <= b.nextConn
    && (forall c :: c in b.conns && c < a.nextConn ==> c in a.conns && b.conns[c].syncedAt == a.conns[c].syncedAt)
    && (forall c :: c in b.conns && c !in a.conns ==> b.conns[c].syncedAt.None?)
  }

  lemma CallKeepsSyncTimes(db: Db, call: Call)
    requires !call.MarkSynced?
    ensures SyncTimesKept(db, Apply(db, call))
  {}

  lemma UpsertKeepsSyncTimes(db: Db, id: nat, login: Login)
    ensures SyncTimesKept(db, Upserted(db, id, login))
  {
    CallKeepsSyncTimes(db, Upsert(id, login));
  }

  lemma TablesKeepInv(s: Cache, db: Db, interval: int)
    requires Inv(s, interval) && Valid(db) && SyncTimesKept(s.db, db)
    ensures Inv(s.(db := db), interval)
  {}

  lemma OtherKeepsInv(s: Cache, step: Step, interval: int)
    requires Inv(s, interval) && step.Other?
    ensures Inv(After(s, step, interval), interval)
  {
    if !step.call.MarkSynced? {
      CallKeepsValid(s.db, step.call);
      CallKeepsSyncTimes(s.db, step.call);
      TablesKeepInv(s, Apply(s.db, step.call), interval);
    }
  }

  lemma AttachKeepsInv(s: Cache, step: Step, interval: int)
    requires Inv(s, interval) && step.Attach?
    ensures Inv(After(s, step, interval), interval)
  {
    if s.phase.Idle? {
      UpsertKeepsValid(s.db, step.id, step.login);
      UpsertKeepsSyncTimes(s.db, step.id, step.login);
      var db := Upserted(s.db, step.id, step.login);
      TablesKeepInv(s, db, interval);
      if HasConn(db, step.id) {
        var c := Reconcile.ConnOf(db, step.id);
        OneRowKeepsInv(s.(db := db), c, interval);
      }
    }
  }

  lemma OneRowKeepsInv(s: Cache, c: nat, interval: int)
    requires Inv(s, interval) && s.phase.Idle? && c in s.db.conns
    ensures Inv(s.(phase := Passing([Row(c, s.db.conns[c])])), interval)
  {}

  lemma FetchKeepsInv(s: Cache, interval: int)
    requires Inv(s, interval) && interval >= 0 && s.phase.Passing? && s.phase.todo != []
    requires !Fresh(s.phase.todo[0].row.syncedAt, s.now, interval)
    ensures Inv(CheckStep(s, interval), interval)
  {
    var r, rest, t := s.phase.todo[0], s.phase.todo[1..], CheckStep(s, interval);
    assert Accounts(s.log, r.conn, r.row.syncedAt);
    assert forall k :: 0 <= k < |rest| ==> rest[k].conn != r.conn;
    assert forall k :: 0 <= k < |rest| ==> Accounts(t.log, rest[k].conn, rest[k].row.syncedAt);
    assert LogOk(t, interval);
    assert TodoOk(t, rest);
  }

  lemma CheckKeepsInv(s: Cache, step: Step, interval: int)
    requires Inv(s, interval) && step.Check? && interval >= 0
    ensures Inv(After(s, step, interval), interval)
  {
    if s.phase.Passing? && s.phase.todo != [] {
      if Fresh(s.phase.todo[0].row.syncedAt, s.now, interval) {
        assert TodoOk(s, s.phase.todo[1..]);
      } else {
        FetchKeepsInv(s, interval);
      }
    }
  }

  lemma StampKeepsInv(s: Cache, step: Step, interval: int)
    requires Inv(s, interval) && step.Stamp? && (s.phase.Calling? ==> step.ok)
    ensures Inv(After(s, step, interval), interval)
  {
    if s.phase.Calling? {
      SyncedKeepsValid(s.db, s.phase.conn, s.now, step.account, step.error);
    }
  }

  /** A step that loses the stamp of a fetch under way: its store call fails, or the process dies. */
  predicate Loses(step: Step) {
    step.Lost? || (step.Stamp? && !step.ok)
  }

  lemma StepKeepsInv(s: Cache, step: Step, interval: int)
    requires Inv(s, interval) && interval >= 0 && !(Loses(step) && s.phase.Calling?)
    ensures Inv(After(s, step, interval), interval)
  {
    match step
    case Other(_) => OtherKeepsInv(s, step, interval);
    case Attach(_, _) => AttachKeepsInv(s, step, interval);
    case Check => CheckKeepsInv(s, step, interval);
    case Stamp(_, _, _) => StampKeepsInv(s, step, interval);
    case _ =>
  }

  /** No fetch under way loses its stamp. */
  ghost predicate KeepsStamps(s: Cache, steps: seq<Step>, interval: int) {
    forall k :: 0 <= k < |steps| && Loses(steps[k]) ==> !Reach(s, steps[..k], interval).phase.Calling?
  }

  lemma {:induction false} ReachKeepsInv(s: Cache, steps: seq<Step>, interval: int)
    requires Inv(s, interval) && interval >= 0 && KeepsStamps(s, steps, interval)
    ensures Inv(Reach(s, steps, interval), interval)
    decreases |steps|
  {
    if steps == [] {
    } else {
      var n := |steps| - 1;
      assert forall k :: 0 <= k < n ==> steps[..n][..k] == steps[..k];
      ReachKeepsInv(s, steps[..n], interval);
      StepKeepsInv(Reach(s, steps[..n], interval), steps[n], interval);
    }
  }

  // ----- spacing -----

  /** Before the first fetch. */
  ghost predicate Start(s: Cache) {
    Valid(s.db) && s.phase.Idle? && s.log == []
  }

  /**
   Login spacing. In every run in which each fetch is followed by its stamp,
   across restarts, failed fetches, changed credentials and deleted bills, two
   fetches for the same connection row are at least the interval apart.
   */
  lemma LoginsAreSpaced(s: Cache, steps: seq<Step>, interval: int)
    requires Start(s) && interval >= 0 && KeepsStamps(s, steps, interval)
    ensures Spaced(Reach(s, steps, interval).log, interval)
  {
    ReachKeepsInv(s, steps, interval);
  }

  /** The fetches of one connection in a span of time. */
  function InSpan(log: seq<Attempt>, conn: nat, from: int, to: int): seq<int>
    decreases |log|
  {
    if log == [] then []
    else
      var n := |log| - 1;
      var rest := InSpan(log[..n], conn, from, to);
      if log[n].conn == conn && from <= log[n].time <= to then rest + [log[n].time] else rest
  }

  ghost predicate Spread(t: seq<int>, interval: int) {
    forall k :: 0 < k < |t| ==> t[k] - t[k - 1] >= interval
  }

  ghost predicate FromLog(t: seq<int>, log: seq<Attempt>, conn: nat, from: int, to: int) {
    forall k :: 0 <= k < |t| ==> from <= t[k] <= to && Attempt(conn, t[k]) in log
  }

  lemma {:induction false} SpanTimes(log: seq<Attempt>, conn: nat, from: int, to: int, interval: int)
    requires Spaced(log, interval)
    ensures FromLog(InSpan(log, conn, from, to), log, conn, from, to)
    ensures Spread(InSpan(log, conn, from, to), interval)
    decreases |log|
  {
    if log == [] {
    } else {
      var n := |log| - 1;
      var init := log[..n];
      var rest, t := InSpan(init, conn, from, to), InSpan(log, conn, from, to);
      SpanTimes(init, conn, from, to, interval);
      assert forall a :: a in init ==> a in log;
      assert log[n] in log;
      if t != rest && rest != [] {
        assert Attempt(conn, rest[|rest| - 1]) in init;
        var i :| 0 <= i < n && init[i] == Attempt(conn, rest[|rest| - 1]);
        assert log[i] == init[i] && log[n].time - log[i].time >= interval;
      }
    }
  }

  lemma {:induction false} SpreadIsWide(t: seq<int>, interval: int)
    requires t != [] && Spread(t, interval)
    ensures (|t| - 1) * interval <= t[|t| - 1] - t[0]
    decreases |t|
  {
    if |t| == 1 {
    } else {
      SpreadIsWide(t[..|t| - 1], interval);
      assert (|t| - 2) * interval + interval == (|t| - 1) * interval;
    }
  }

  lemma SpacedPerSpan(log: seq<Attempt>, interval: int, conn: nat, from: int, span: nat)
    requires Spaced(log, interval) && interval > 0
    ensures |InSpan(log, conn, from, from + span)| <= span / interval + 1
  {
    var t := InSpan(log, conn, from, from + span);
    SpanTimes(log, conn, from, from + span, interval);
    if t != [] {
      SpreadIsWide(t, interval);
      CountBound(|t| - 1, t[|t| - 1] - t[0], span, interval);
    }
  }

  /** Hence a span of length `span` holds at most span / interval + 1 of them. */
  lemma LoginsPerSpan(s: Cache, steps: seq<Step>, interval: int, conn: nat, from: int, span: nat)
    requires Start(s) && interval > 0 && KeepsStamps(s, steps, interval)
    ensures |InSpan(Reach(s, steps, interval).log, conn, from, from + span)| <= span / interval + 1
  {
    LoginsAreSpaced(s, steps, interval);
    SpacedPerSpan(Reach(s, steps, interval).log, interval, conn, from, span);
  }

  lemma CountBound(k: nat, width: int, span: nat, interval: int)
    requires interval > 0 && k * interval <= width <= span
    ensures k <= span / interval
  {
    var q := span / interval;
    assert span == q * interval + span % interval;
    assert k >= q + 1 ==> k * interval >= (q + 1) * interval;
    assert (q + 1) * interval == q * interval + interval;
  }

  lemma ListOne(s: Cache, conn: nat)
    requires s.phase.Idle? && conn in s.db.conns
    ensures ListStep(s, [conn]) == s.(phase := Passing([Row(conn, s.db.conns[conn])]))
  {
    var t := ListStep(s, [conn]);
    assert t.phase.Passing? && |t.phase.todo| == 1 && t.phase.todo[0] == Row(conn, s.db.conns[conn]);
  }

  /** A run in two parts. */
  lemma {:induction false} ReachConcat(s: Cache, a: seq<Step>, b: seq<Step>, interval: int)
    ensures Reach(s, a + b, interval) == Reach(Reach(s, a, interval), b, interval)
    decreases |b|
  {
    if b == [] {
      assert a + b == a;
    } else {
      var n := |b| - 1;
      ReachConcat(s, a, b[..n], interval);
      assert (a + b)[..|a + b| - 1] == a + b[..n];
    }
  }

  lemma ReachOne(s: Cache, step: Step, interval: int)
    ensures Reach(s, [step], interval) == After(s, step, interval)
  {
    assert [step][..0] == [];
  }

  // ----- progress -----

  /** No stamp lies in the future. */
  ghost predicate StampsPast(s: Cache) {
    forall c :: c in s.db.conns && s.db.conns[c].syncedAt.Some? ==> s.db.conns[c].syncedAt.value <= s.now
  }

  lemma CallKeepsStampsPast(s: Cache, t: Cache, call: Call)
    requires Valid(s.db) && StampsPast(s) && !call.MarkSynced? && t.db == Apply(s.db, call) && t.now == s.now
    ensures Valid(t.db) && StampsPast(t)
  {
    CallKeepsValid(s.db, call);
    CallKeepsSyncTimes(s.db, call);
  }

  lemma StampKeepsStampsPast(s: Cache, account: string, error: Option<string>, ok: bool)
    requires Valid(s.db) && StampsPast(s)
    ensures Valid(StampStep(s, account, error, ok).db) && StampsPast(StampStep(s, account, error, ok))
  {
    if s.phase.Calling? {
      SyncedKeepsValid(s.db, s.phase.conn, s.now, account, error);
    }
  }

  lemma StepKeepsStampsPast(s: Cache, step: Step, interval: int)
    requires Valid(s.db) && StampsPast(s)
    ensures Valid(After(s, step, interval).db) && StampsPast(After(s, step, interval))
  {
    match step
    case Other(call) =>
      if !call.MarkSynced? {
        CallKeepsStampsPast(s, After(s, step, interval), call);
      }
    case Attach(id, login) =>
      if s.phase.Idle? {
        CallKeepsStampsPast(s, After(s, step, interval), Upsert(id, login));
      }
    case Stamp(account, error, ok) => StampKeepsStampsPast(s, account, error, ok);
    case _ => assert After(s, step, interval).db == s.db && After(s, step, interval).now >= s.now;
  }

  lemma {:induction false} ReachKeepsStampsPast(s: Cache, steps: seq<Step>, interval: int)
    requires Valid(s.db) && StampsPast(s)
    ensures Valid(Reach(s, steps, interval).db) && StampsPast(Reach(s, steps, interval))
    decreases |steps|
  {
    if steps == [] {
    } else {
      var n := |steps| - 1;
      ReachKeepsStampsPast(s, steps[..n], interval);
      StepKeepsStampsPast(Reach(s, steps[..n], interval), steps[n], interval);
    }
  }

  /** A row not fetched since keeps its sync time. */
  ghost predicate Untouched(s0: Cache, s: Cache, conn: nat) {
    && s0.now <= s.now && s0.db.nextConn <= s.db.nextConn
    && |s0.log| <= |s.log| && s.log[..|s0.log|] == s0.log
    && (s.phase.Calling? && s.phase.conn == conn ==> exists k :: |s0.log| <= k < |s.log| && s.log[k].conn == conn)
    && ((forall k :: |s0.log| <= k < |s.log| ==> s.log[k].conn != conn) && conn in s.db.conns ==>
          conn in s0.db.conns && s.db.conns[conn].syncedAt == s0.db.conns[conn].syncedAt)
  }

  lemma TablesKeepUntouched(s0: Cache, s: Cache, t: Cache, conn: nat)
    requires Untouched(s0, s, conn) && conn < s0.db.nextConn && SyncTimesKept(s.db, t.db)
    requires t.now == s.now && t.log == s.log && (t.phase == s.phase || !t.phase.Calling?)
    ensures Untouched(s0, t, conn)
  {}

  lemma CheckKeepsUntouched(s0: Cache, s: Cache, interval: int, conn: nat)
    requires Untouched(s0, s, conn)
    ensures Untouched(s0, CheckStep(s, interval), conn)
  {
    var t := CheckStep(s, interval);
    if t.log != s.log {
      assert t.log[|s.log|] == Attempt(s.phase.todo[0].conn, s.now);
      assert forall k :: 0 <= k < |s.log| ==> t.log[k] == s.log[k];
    }
  }

  lemma StepKeepsUntouched(s0: Cache, s: Cache, step: Step, interval: int, conn: nat)
    requires Untouched(s0, s, conn) && conn < s0.db.nextConn
    ensures Untouched(s0, After(s, step, interval), conn)
  {
    var t := After(s, step, interval);
    match step
    case Other(call) =>
      if !call.MarkSynced? {
        CallKeepsSyncTimes(s.db, call);
        TablesKeepUntouched(s0, s, t, conn);
      }
    case Attach(id, login) =>
      if s.phase.Idle? {
        UpsertKeepsSyncTimes(s.db, id, login);
        TablesKeepUntouched(s0, s, t, conn);
      }
    case Check => CheckKeepsUntouched(s0, s, interval, conn);
    case Stamp(account, error, ok) => StampKeepsUntouched(s0, s, account, error, ok, conn);
    case _ => TablesKeepUntouched(s0, s.(now := t.now), t, conn);
  }

  lemma StampKeepsUntouched(s0: Cache, s: Cache, account: string, error: Option<string>, ok: bool, conn: nat)
    requires Untouched(s0, s, conn)
    ensures Untouched(s0, StampStep(s, account, error, ok), conn)
  {}

  lemma {:induction false} RunKeepsUntouched(s0: Cache, steps: seq<Step>, interval: int, conn: nat)
    requires !s0.phase.Calling? && conn < s0.db.nextConn
    ensures Untouched(s0, Reach(s0, steps, interval), conn)
    decreases |steps|
  {
    if steps == [] {
    } else {
      var n := |steps| - 1;
      RunKeepsUntouched(s0, steps[..n], interval, conn);
      StepKeepsUntouched(s0, Reach(s0, steps[..n], interval), steps[n], interval, conn);
    }
  }

  lemma StaleUntilFetched(start: Cache, before: seq<Step>, between: seq<Step>, interval: int, conn: nat)
    requires Start(start) && StampsPast(start)
    requires var s0 := Reach(start, before, interval);
             var s := Reach(s0, between, interval);
             && s0.phase.Idle? && conn in s0.db.conns && conn in s.db.conns && s.now >= s0.now + interval
             && forall k :: |s0.log| <= k < |s.log| ==> s.log[k].conn != conn
    ensures var s := Reach(Reach(start, before, interval), between, interval);
            !Fresh(s.db.conns[conn].syncedAt, s.now, interval)
  {
    ReachKeepsStampsPast(start, before, interval);
    RunKeepsUntouched(Reach(start, before, interval), between, interval, conn);
  }

  /** The pass is neither cut short nor the process restarted. */
  predicate Uncut(steps: seq<Step>) {
    forall k :: 0 <= k < |steps| ==> !steps[k].Restart? && !steps[k].Lost?
  }

  ghost predicate AttemptedSince(log: seq<Attempt>, n: nat, conn: nat) {
    exists k :: n <= k < |log| && log[k].conn == conn
  }

  predicate StaleRow(r: Row, conn: nat, since: int, interval: int) {
    r.conn == conn && !Fresh(r.row.syncedAt, since, interval)
  }

  /** The connection has been fetched in this pass, or its stale row is still to come. */
  ghost predicate Coming(s: Cache, n: nat, conn: nat, since: int, interval: int) {
    && since <= s.now && n <= |s.log|
    && (AttemptedSince(s.log, n, conn)
        || (!s.phase.Idle? && exists k :: 0 <= k < |s.phase.todo| && StaleRow(s.phase.todo[k], conn, since, interval)))
  }

  lemma CheckKeepsComing(s: Cache, n: nat, conn: nat, since: int, interval: int)
    requires Coming(s, n, conn, since, interval)
    ensures Coming(CheckStep(s, interval), n, conn, since, interval)
  {
    var t := CheckStep(s, interval);
    if AttemptedSince(s.log, n, conn) {
      var k :| n <= k < |s.log| && s.log[k].conn == conn;
      assert t.log[k] == s.log[k];
    } else if s.phase.Passing? {
      var k :| 0 <= k < |s.phase.todo| && StaleRow(s.phase.todo[k], conn, since, interval);
      if k == 0 {
        assert t.log[|s.log|].conn == conn;
      } else {
        assert t.phase.todo[k - 1] == s.phase.todo[k];
      }
    }
  }

  lemma {:induction false} PassKeepsComing(s: Cache, steps: seq<Step>, n: nat, conn: nat, since: int, interval: int)
    requires Coming(s, n, conn, since, interval) && !s.phase.Idle? && Uncut(steps)
    ensures Coming(Reach(s, steps, interval), n, conn, since, interval) && !Reach(s, steps, interval).phase.Idle?
    decreases |steps|
  {
    if steps == [] {
    } else {
      var m := |steps| - 1;
      PassKeepsComing(s, steps[..m], n, conn, since, interval);
      if steps[m].Check? {
        CheckKeepsComing(Reach(s, steps[..m], interval), n, conn, since, interval);
      }
    }
  }

  /** The listing holds the row of each connection in order. */
  lemma ListedRow(s: Cache, order: seq<nat>, k: nat)
    requires s.phase.Idle? && Distinct(order) && (forall i :: 0 <= i < |order| ==> order[i] in s.db.conns)
    requires k < |order|
    ensures var t := ListStep(s, order);
            t.phase.Passing? && |t.phase.todo| == |order| && t.phase.todo[k] == Row(order[k], s.db.conns[order[k]])
  {}

  /**
   Progress. After any run `before` a pass begins; the next begins, after the
   steps `between`, an interval or more later. A connection that was not fetched
   in between is fetched in that next pass if it runs to its end, whatever else
   happens meanwhile: no connection is skipped twice in a row.
   */
  lemma NotSkippedTwice(start: Cache, before: seq<Step>, between: seq<Step>, order: seq<nat>, pass: seq<Step>,
                        interval: int, conn: nat)
    requires Start(start) && StampsPast(start)
    requires var s0 := Reach(start, before, interval);
             var s := Reach(s0, between, interval);
             && s0.phase.Idle? && s.phase.Idle? && conn in s0.db.conns && s.now >= s0.now + interval
             && (forall k :: |s0.log| <= k < |s.log| ==> s.log[k].conn != conn)
             && Distinct(order) && (forall k :: 0 <= k < |order| ==> order[k] in s.db.conns) && conn in order
    requires Uncut(pass)
    requires Reach(ListStep(Reach(Reach(start, before, interval), between, interval), order), pass, interval).phase
             == Passing([])
    ensures var s := Reach(Reach(start, before, interval), between, interval);
            AttemptedSince(Reach(ListStep(s, order), pass, interval).log, |s.log|, conn)
  {
    var s := Reach(Reach(start, before, interval), between, interval);
    var k :| 0 <= k < |order| && order[k] == conn;
    StaleUntilFetched(start, before, between, interval, conn);
    ListedRow(s, order, k);
    var t := ListStep(s, order);
    assert StaleRow(t.phase.todo[k], conn, s.now, interval);
    PassKeepsComing(t, pass, |s.log|, conn, s.now, interval);
  }

  /** A check and a stamp for each row. */
  function PassSteps(n: nat): seq<Step> {
    if n == 0 then [] else PassSteps(n - 1) + [Check, Stamp("", None, true)]
  }

  lemma OneRowPassed(s: Cache, interval: int)
    requires s.phase.Passing? && s.phase.todo != []
    ensures Reach(s, [Check, Stamp("", None, true)], interval).phase == Passing(s.phase.todo[1..])
  {
    var stamp := Stamp("", None, true);
    ReachOne(s, Check, interval);
    ReachOne(After(s, Check, interval), stamp, interval);
    ReachConcat(s, [Check], [stamp], interval);
    assert [Check] + [stamp] == [Check, stamp];
  }

  function Elapsed(steps: seq<Step>): nat
    decreases |steps|
  {
    if steps == [] then 0
    else Elapsed(steps[..|steps| - 1]) + if steps[|steps| - 1].Wait? then steps[|steps| - 1].minutes else 0
  }

  /** The clock is what it was and the waits of the run. */
  lemma {:induction false} ClockCountsWaits(s: Cache, steps: seq<Step>, interval: int)
    ensures Reach(s, steps, interval).now == s.now + Elapsed(steps)
    decreases |steps|
  {
    if steps == [] {
    } else {
      ClockCountsWaits(s, steps[..|steps| - 1], interval);
    }
  }

  /** They run a pass to its end. */
  lemma {:induction false} PassEnds(s: Cache, n: nat, interval: int)
    requires s.phase.Passing? && n <= |s.phase.todo|
    ensures Reach(s, PassSteps(n), interval).phase == Passing(s.phase.todo[n..]) && Uncut(PassSteps(n))
    decreases n
  {
    if n == 0 {
    } else {
      PassEnds(s, n - 1, interval);
      OneRowPassed(Reach(s, PassSteps(n - 1), interval), interval);
      ReachConcat(s, PassSteps(n - 1), [Check, Stamp("", None, true)], interval);
    }
  }

  /** After which the next pass can begin. */
  lemma PassMakesRoom(s: Cache, interval: int)
    requires s.phase.Passing?
    ensures Reach(s, PassSteps(|s.phase.todo|) + [Restart], interval).phase == Idle
  {
    var n := |s.phase.todo|;
    PassEnds(s, n, interval);
    ReachConcat(s, PassSteps(n), [Restart], interval);
    ReachOne(Reach(s, PassSteps(n), interval), Restart, interval);
  }

  // ----- a lost stamp -----

  /** The fetches of one connection are an interval apart. */
  ghost predicate SpacedFor(log: seq<Attempt>, conn: nat, interval: int) {
    forall i, j :: 0 <= i < j < |log| && log[i].conn == conn && log[j].conn == conn ==>
      log[j].time - log[i].time >= interval
  }

  /** One more fetch of a connection whose last one is at index `n`. */
  lemma OneMoreFetch(log: seq<Attempt>, n: nat, next: Attempt, interval: int)
    requires n < |log| && log[n].conn == next.conn && (forall k :: n < k < |log| ==> log[k].conn != next.conn)
    requires Spaced(log[..n + 1], interval) && interval >= 0
    ensures SpacedFor(log + [next], next.conn, interval) <==> next.time - log[n].time >= interval
    ensures Spaced(log, interval) ==> (Spaced(log + [next], interval) <==> next.time - log[n].time >= interval)
  {
    var m, all := |log|, log + [next];
    assert all[n] == log[n] && all[m] == next;
    assert forall i :: 0 <= i <= n ==> log[..n + 1][i] == log[i];
    if next.time - log[n].time >= interval {
      forall i | 0 <= i < m && all[i].conn == next.conn
        ensures next.time - all[i].time >= interval
      {
        if i < n {
          assert log[n].time - log[i].time >= interval;
        }
      }
    }
  }

  /** The next pass comes to the row. */
  ghost function CheckedNext(s: Cache, conn: nat, interval: int): Cache {
    After(After(s, List([conn]), interval), Check, interval)
  }

  lemma StaleRowIsFetched(s: Cache, conn: nat, interval: int)
    requires s.phase.Idle? && conn in s.db.conns && !Fresh(s.db.conns[conn].syncedAt, s.now, interval)
    ensures CheckedNext(s, conn, interval).log == s.log + [Attempt(conn, s.now)]
  {
    ListOne(s, conn);
  }

  /** From the loss of the stamp to the next check nothing stamps the row: it is as stale as it was. */
  lemma StillStale(s: Cache, how: Step, more: seq<Step>, conn: nat, interval: int)
    requires Inv(s, interval) && s.phase.Calling? && s.phase.conn == conn && Loses(how)
    requires var u := Reach(After(s, how, interval), more, interval);
             conn in u.db.conns && forall k :: |s.log| <= k < |u.log| ==> u.log[k].conn != conn
    ensures var u := Reach(After(s, how, interval), more, interval);
            !Fresh(u.db.conns[conn].syncedAt, u.now, interval) && s.log <= u.log
  {
    var lost := After(s, how, interval);
    assert lost.db == s.db && lost.log == s.log && lost.now == s.now && !lost.phase.Calling?;
    RunKeepsUntouched(lost, more, interval, conn);
    assert CallOk(s, conn, interval) && s.log[|s.log| - 1].time <= s.now;
  }

  /**
   What a lost stamp costs. Take any reachable state with a fetch under way
   whose stamp is lost: its store call fails, or the process dies. Whatever
   happens then, the next pass that comes to the row calls the vendor again, and
   the spacing of its fetches is broken if and only if that is less than an
   interval after the fetch.
   */
  lemma LostStampBreaksSpacing(start: Cache, steps: seq<Step>, s: Cache, how: Step, more: seq<Step>, u: Cache,
                               conn: nat, interval: int)
    requires Start(start) && interval >= 0 && KeepsStamps(start, steps, interval) && s == Reach(start, steps, interval)
    requires s.phase.Calling? && s.phase.conn == conn && Loses(how)
    requires u == Reach(After(s, how, interval), more, interval) && u.phase.Idle? && conn in u.db.conns
    requires forall k :: |s.log| <= k < |u.log| ==> u.log[k].conn != conn
    ensures var log := CheckedNext(u, conn, interval).log;
            && s.log != [] && s.log[|s.log| - 1].conn == conn && s.log <= u.log
            && log == u.log + [Attempt(conn, u.now)]
            && (!SpacedFor(log, conn, interval) <==> u.now - s.log[|s.log| - 1].time < interval)
            && (Spaced(u.log, interval) ==> (!Spaced(log, interval) <==> u.now - s.log[|s.log| - 1].time < interval))
  {
    assert Inv(s, interval) by {
      ReachKeepsInv(start, steps, interval);
    }
    StillStale(s, how, more, conn, interval);
    StaleRowIsFetched(u, conn, interval);
    assert u.log[..|s.log|] == s.log;
    OneMoreFetch(u.log, |s.log| - 1, Attempt(conn, u.now), interval);
  }

  // ----- a restart -----

  /**
   The reconciliation's attach, then the check of the row it reads back: the
   vendor is called exactly if the bill exists and its connection, if it had one
   already, is stale; a saved login does not make it fresh or stale.
   */
  lemma AttachCallsIfStale(s: Cache, id: nat, login: Login, interval: int)
    requires Valid(s.db) && s.phase.Idle?
    ensures var t := After(After(s, Attach(id, login), interval), Check, interval);
            |t.log| > |s.log| <==> id in s.db.defs && NoneFresh(s.db, id, s.now, interval)
  {
    var db := Upserted(s.db, id, login);
    UpsertKeepsValid(s.db, id, login);
    if id in s.db.defs {
      AttachedRow(s.db, id, login);
      StaleAsBefore(s.db, db, id, Reconcile.ConnOf(db, id), s.now, interval);
    }
  }

  /** No connection of the bill is fresh. */
  ghost predicate NoneFresh(db: Db, id: nat, now: int, interval: int) {
    forall c :: c in db.conns && db.conns[c].definition == id ==> !Fresh(db.conns[c].syncedAt, now, interval)
  }

  lemma StaleAsBefore(a: Db, b: Db, id: nat, c: nat, now: int, interval: int)
    requires ConnsValid(b) && c in b.conns && b.conns[c].definition == id
    requires HasConn(a, id) ==>
               exists d :: d in a.conns && a.conns[d].definition == id && d in b.conns && b.conns[d].definition == id
    requires forall d :: d in b.conns && b.conns[d].definition == id ==>
               if d in a.conns then a.conns[d].definition == id && b.conns[d].syncedAt == a.conns[d].syncedAt
               else b.conns[d].syncedAt == None && !HasConn(a, id)
    requires ConnsValid(a)
    ensures NoneFresh(a, id, now, interval) <==> !Fresh(b.conns[c].syncedAt, now, interval)
  {}

  /** The row read back is the bill's: with the sync time it had, or new and without one. */
  lemma AttachedRow(db: Db, id: nat, login: Login)
    requires Valid(db) && id in db.defs
    ensures var b := Upserted(db, id, login);
            && HasConn(b, id)
            && (HasConn(db, id) ==> exists d :: d in db.conns && db.conns[d].definition == id
                                                && d in b.conns && b.conns[d].definition == id)
            && forall c :: c in b.conns && b.conns[c].definition == id ==>
                 if c in db.conns then db.conns[c].definition == id && b.conns[c].syncedAt == db.conns[c].syncedAt
                 else b.conns[c].syncedAt == None && !HasConn(db, id)
  {
    var b := Upserted(db, id, login);
    if HasConn(db, id) {
      var c :| c in db.conns && db.conns[c].definition == id;
      assert c in b.conns && b.conns[c].definition == id;
    } else {
      assert db.nextConn in b.conns && b.conns[db.nextConn].definition == id;
    }
  }
}
