/**
 The SimpleFIN connection and its accounts (internal/models/simplefin_connection.go,
 internal/models/account.go) under connect, disconnect and refreshes in flight
 (internal/scheduler/scheduler.go, internal/handlers/settings.go). Each store
 call is atomic; refreshes hold what they read.
 */
module SimpleFin {
  import opened Basics

  datatype Conn = Conn(accessURL: string, syncedAt: Option<int>, syncError: Option<string>)

  datatype Account = Account(simplefinId: string, name: string, balanceCents: int,
                             displayName: Option<string>, visible: bool)

  /** An account as the bank reports it. */
  datatype Balance = Balance(simplefinId: string, name: string, balanceCents: int)

  /** A refresh: it has read a connection; it has its accounts; it is about to mark the connection. */
  datatype Worker =
    | Holding(conn: nat)
    | Storing(conn: nat, todo: seq<Balance>)
    | Marking(conn: nat, error: Option<string>)

  datatype State = State(
    conns: map<nat, Conn>,
    nextConn: nat,
    accounts: map<nat, Account>,
    nextAccount: nat,
    workers: map<nat, Worker>)

  const INITIAL := State(map[], 1, map[], 1, map[])

  datatype Step =
    | Connect(accessURL: string)
    | Disconnect
    | DeleteAll
    | SetVisible(account: nat, visible: bool)
    | SetDisplayName(account: nat, name: string)
    | Begin(w: nat, conn: nat)
    | Fetched(w: nat, balances: seq<Balance>)
    | FetchFailed(w: nat, reason: string)
    | Store(w: nat, ok: bool)
    | Mark(w: nat, now: int, ok: bool)
    | Crash

  predicate HasAccount(s: State, id: string) {
    exists a :: a in s.accounts && s.accounts[a].simplefinId == id
  }

  /** INSERT ... ON CONFLICT DO UPDATE: what the parent chose is not among the columns set. */
  function Upserted(s: State, b: Balance): State {
    var burnt := s.(nextAccount := s.nextAccount + 1);
    if HasAccount(s, b.simplefinId) then
      burnt.(accounts := map a | a in s.accounts ::
        if s.accounts[a].simplefinId == b.simplefinId
        then s.accounts[a].(name := b.name, balanceCents := b.balanceCents) else s.accounts[a])
    else burnt.(accounts := s.accounts[s.nextAccount := Account(b.simplefinId, b.name, b.balanceCents, None, true)])
  }

  function Put(s: State, w: nat, k: Worker): State {
    s.(workers := s.workers[w := k])
  }

  function StoreStep(s: State, w: nat, ok: bool): State {
    if w in s.workers && s.workers[w].Storing? then
      var k := s.workers[w];
      if k.todo == [] then Put(s, w, Marking(k.conn, None))
      else Put(if ok then Upserted(s, k.todo[0]) else s, w, k.(todo := k.todo[1..]))
    else s
  }

  /** `MarkSynced`, by the id the refresh began with. */
  function MarkStep(s: State, w: nat, now: int, ok: bool): State {
    if w in s.workers && s.workers[w].Marking? then
      var k := s.workers[w];
      var done := s.(workers := s.workers - {w});
      if ok && k.conn in s.conns
      then done.(conns := s.conns[k.conn := s.conns[k.conn].(syncedAt := Some(now), syncError := k.error)])
      else done
    else s
  }

  function After(s: State, step: Step): State {
    match step
    case Connect(url) => s.(conns := map[s.nextConn := Conn(url, None, None)], nextConn := s.nextConn + 1)
    case Disconnect => s.(conns := map[])
    case DeleteAll => s.(accounts := map[])
    case SetVisible(a, v) =>
      if a in s.accounts then s.(accounts := s.accounts[a := s.accounts[a].(visible := v)]) else s
    case SetDisplayName(a, name) =>
      if a in s.accounts
      then s.(accounts := s.accounts[a := s.accounts[a].(displayName := if name == "" then None else Some(name))])
      else s
    case Begin(w, conn) => if conn in s.conns then Put(s, w, Holding(conn)) else s
    case Fetched(w, balances) =>
      if w in s.workers && s.workers[w].Holding? then Put(s, w, Storing(s.workers[w].conn, balances)) else s
    case FetchFailed(w, reason) =>
      if w in s.workers && s.workers[w].Holding? then Put(s, w, Marking(s.workers[w].conn, Some(reason))) else s
    case Store(w, ok) => StoreStep(s, w, ok)
    case Mark(w, now, ok) => MarkStep(s, w, now, ok)
    case Crash => s.(workers := map[])
  }

  function Reach(s: State, steps: seq<Step>): State
    decreases |steps|
  {
    if steps == [] then s else After(Reach(s, steps[..|steps| - 1]), steps[|steps| - 1])
  }

  // ----- the connection -----

  /** The connection a refresh read when it began, unless the process has died since. */
  function BeganOn(steps: seq<Step>, w: nat): Option<nat>
    decreases |steps|
  {
    if steps == [] then None
    else
      var n := |steps| - 1;
      match steps[n]
      case Begin(v, conn) =>
        if v == w && conn in Reach(INITIAL, steps[..n]).conns then Some(conn) else BeganOn(steps[..n], w)
      case Crash => None
      case _ => BeganOn(steps[..n], w)
  }

  /** How its fetch ended, if it has: without error, or with one. */
  function FetchEnded(steps: seq<Step>, w: nat): Option<Option<string>>
    decreases |steps|
  {
    if steps == [] then None
    else
      var n := |steps| - 1;
      var soFar := FetchEnded(steps[..n], w);
      match steps[n]
      case Begin(v, conn) => if v == w && conn in Reach(INITIAL, steps[..n]).conns then None else soFar
      case Fetched(v, _) => if v == w && soFar.None? then Some(None) else soFar
      case FetchFailed(v, reason) => if v == w && soFar.None? then Some(Some(reason)) else soFar
      case _ => soFar
  }

  datatype Status = Status(at: Option<int>, error: Option<string>)

  /** The last step is a successful mark by a refresh that began on `c`. */
  predicate MarksOwn(steps: seq<Step>, c: nat) {
    steps != [] &&
    var n := |steps| - 1;
    var s := Reach(INITIAL, steps[..n]);
    && steps[n].Mark? && steps[n].ok && steps[n].w in s.workers && s.workers[steps[n].w].Marking?
    && BeganOn(steps[..n], steps[n].w) == Some(c)
  }

  /** The time of the last such mark and the error that refresh ended in; none if there was no such mark. */
  function LastStatus(steps: seq<Step>, c: nat): Status
    decreases |steps|
  {
    if steps == [] then Status(None, None)
    else
      var n := |steps| - 1;
      if MarksOwn(steps, c) then
        var ended := FetchEnded(steps[..n], steps[n].w);
        Status(Some(steps[n].now), if ended.Some? then ended.value else None)
      else LastStatus(steps[..n], c)
  }

  ghost predicate ConnsOk(s: State) {
    && (forall c, e :: c in s.conns && e in s.conns ==> c == e)
    && (forall c :: c in s.conns ==> c < s.nextConn)
  }

  /** What a worker holds is what its steps say. */
  predicate HoldsOwn(steps: seq<Step>, w: nat, k: Worker) {
    && BeganOn(steps, w) == Some(k.conn)
    && FetchEnded(steps, w) == match k
         case Holding(_) => None
         case Storing(_, _) => Some(None)
         case Marking(_, error) => Some(error)
  }

  ghost predicate WorkersOk(steps: seq<Step>, s: State) {
    && (forall w :: w in s.workers ==> HoldsOwn(steps, w, s.workers[w]))
    && (forall w :: BeganOn(steps, w).Some? ==> BeganOn(steps, w).value < s.nextConn)
  }

  ghost predicate StatusOk(steps: seq<Step>, s: State) {
    && (forall c :: c in s.conns ==> Status(s.conns[c].syncedAt, s.conns[c].syncError) == LastStatus(steps, c))
    && (forall c :: c >= s.nextConn ==> LastStatus(steps, c) == Status(None, None))
  }

  lemma StepKeepsConnsOk(s: State, step: Step)
    requires ConnsOk(s)
    ensures ConnsOk(After(s, step)) && s.nextConn <= After(s, step).nextConn
  {}

  /** One step as one worker sees it. */
  lemma StepOnWorker(s: State, step: Step, w: nat)
    requires w in After(s, step).workers
    ensures var k := After(s, step).workers[w];
            if step.Begin? && step.w == w && step.conn in s.conns then k == Holding(step.conn)
            else
              && w in s.workers && k.conn == s.workers[w].conn && !step.Crash?
              && (if step.Fetched? && step.w == w && s.workers[w].Holding? then k.Storing?
                  else if step.FetchFailed? && step.w == w && s.workers[w].Holding?
                  then k == Marking(k.conn, Some(step.reason))
                  else k == s.workers[w] || (s.workers[w].Storing? && (k.Storing? || k == Marking(k.conn, None))))
  {}

  lemma StepKeepsHoldsOwn(steps: seq<Step>, w: nat)
    requires steps != [] && w in Reach(INITIAL, steps).workers
    requires var init := steps[..|steps| - 1];
             w in Reach(INITIAL, init).workers ==> HoldsOwn(init, w, Reach(INITIAL, init).workers[w])
    ensures HoldsOwn(steps, w, Reach(INITIAL, steps).workers[w])
  {
    StepOnWorker(Reach(INITIAL, steps[..|steps| - 1]), steps[|steps| - 1], w);
  }

  lemma StepKeepsWorkersOk(steps: seq<Step>)
    requires steps != []
    requires var init := steps[..|steps| - 1]; ConnsOk(Reach(INITIAL, init)) && WorkersOk(init, Reach(INITIAL, init))
    ensures WorkersOk(steps, Reach(INITIAL, steps))
  {
    var init := steps[..|steps| - 1];
    StepKeepsIds(Reach(INITIAL, init), steps[|steps| - 1]);
    forall w | w in Reach(INITIAL, steps).workers
      ensures HoldsOwn(steps, w, Reach(INITIAL, steps).workers[w])
    {
      StepKeepsHoldsOwn(steps, w);
    }
  }

  lemma MarkSetsStatus(steps: seq<Step>, c: nat)
    requires c in Reach(INITIAL, steps).conns && MarksOwn(steps, c)
    requires var init := steps[..|steps| - 1];
             var w, s := steps[|steps| - 1].w, Reach(INITIAL, init);
             HoldsOwn(init, w, s.workers[w])
    ensures var row := Reach(INITIAL, steps).conns[c]; Status(row.syncedAt, row.syncError) == LastStatus(steps, c)
  {}

  /** A connection just made. */
  lemma NewHasNoStatus(s: State, step: Step, c: nat)
    requires ConnsOk(s) && c in After(s, step).conns && c !in s.conns
    ensures c == s.nextConn && step.Connect? && After(s, step).conns[c].syncedAt == None
    ensures After(s, step).conns[c].syncError == None
  {}

  lemma StepKeepsStatus(steps: seq<Step>, c: nat)
    requires steps != [] && c in Reach(INITIAL, steps).conns
    requires var init := steps[..|steps| - 1];
             var s := Reach(INITIAL, init);
             && ConnsOk(s) && StatusOk(init, s)
             && forall w :: w in s.workers ==> HoldsOwn(init, w, s.workers[w])
    ensures var row := Reach(INITIAL, steps).conns[c]; Status(row.syncedAt, row.syncError) == LastStatus(steps, c)
  {
    var init, last := steps[..|steps| - 1], steps[|steps| - 1];
    var s := Reach(INITIAL, init);
    if MarksOwn(steps, c) {
      MarkSetsStatus(steps, c);
    } else if c in s.conns {
      assert last.Mark? && last.w in s.workers ==> HoldsOwn(init, last.w, s.workers[last.w]);
      StepLeavesConnection(s, last, c);
    } else {
      NewHasNoStatus(s, last, c);
    }
  }

  lemma StepKeepsStatusOk(steps: seq<Step>)
    requires steps != []
    requires var init := steps[..|steps| - 1];
             var s := Reach(INITIAL, init);
             ConnsOk(s) && WorkersOk(init, s) && StatusOk(init, s)
    ensures StatusOk(steps, Reach(INITIAL, steps))
  {
    StepKeepsIds(Reach(INITIAL, steps[..|steps| - 1]), steps[|steps| - 1]);
    forall c | c in Reach(INITIAL, steps).conns
      ensures var row := Reach(INITIAL, steps).conns[c]; Status(row.syncedAt, row.syncError) == LastStatus(steps, c)
    {
      StepKeepsStatus(steps, c);
    }
  }

  lemma {:induction false} ReachKeepsHistory(steps: seq<Step>)
    ensures var s := Reach(INITIAL, steps); ConnsOk(s) && WorkersOk(steps, s) && StatusOk(steps, s)
    decreases |steps|
  {
    if steps == [] {
    } else {
      var init := steps[..|steps| - 1];
      ReachKeepsHistory(init);
      StepKeepsConnsOk(Reach(INITIAL, init), steps[|steps| - 1]);
      StepKeepsWorkersOk(steps);
      StepKeepsStatusOk(steps);
    }
  }

  /**
   In every interleaving there is at most one connection, and its sync time and
   error are those of the last successful mark by a refresh that began on it; a
   connection just made has none until then, whatever refreshes of earlier
   connections are still in flight.
   */
  lemma OneConnectionWithItsOwnStatus(steps: seq<Step>, c: nat)
    requires c in Reach(INITIAL, steps).conns
    ensures var s := Reach(INITIAL, steps);
            && (forall e :: e in s.conns ==> e == c)
            && Status(s.conns[c].syncedAt, s.conns[c].syncError) == LastStatus(steps, c)
  {
    ReachKeepsHistory(steps);
  }

  /** A step alters a connection only as a successful mark by a worker that holds it. */
  lemma StepLeavesConnection(s: State, step: Step, c: nat)
    requires c < s.nextConn
    requires !(step.Mark? && step.ok && step.w in s.workers && s.workers[step.w].Marking?
               && s.workers[step.w].conn == c)
    ensures c in After(s, step).conns ==> c in s.conns && After(s, step).conns[c] == s.conns[c]
  {}

  lemma WorkerHoldsOwn(steps: seq<Step>, w: nat)
    requires w in Reach(INITIAL, steps).workers
    ensures BeganOn(steps, w) == Some(Reach(INITIAL, steps).workers[w].conn)
  {
    ReachKeepsHistory(steps);
    assert HoldsOwn(steps, w, Reach(INITIAL, steps).workers[w]);
  }

  /** The address the parent last connected with. */
  function LastUrl(steps: seq<Step>): Option<string>
    decreases |steps|
  {
    if steps == [] then None
    else
      var last := steps[|steps| - 1];
      if last.Connect? then Some(last.accessURL) else LastUrl(steps[..|steps| - 1])
  }

  /** In every interleaving a connection is the one last made, with its address. */
  lemma {:induction false} ConnectionIsLastMade(steps: seq<Step>, c: nat)
    requires c in Reach(INITIAL, steps).conns
    ensures Some(Reach(INITIAL, steps).conns[c].accessURL) == LastUrl(steps)
    decreases |steps|
  {
    if steps == [] {
    } else {
      var s, last := Reach(INITIAL, steps[..|steps| - 1]), steps[|steps| - 1];
      if !last.Connect? {
        assert c in s.conns && After(s, last).conns[c].accessURL == s.conns[c].accessURL;
        ConnectionIsLastMade(steps[..|steps| - 1], c);
      }
    }
  }

  lemma StepOnConnection(steps: seq<Step>, c: nat)
    requires steps != [] && !MarksOwn(steps, c) && c < Reach(INITIAL, steps[..|steps| - 1]).nextConn
    ensures var s, t := Reach(INITIAL, steps[..|steps| - 1]), Reach(INITIAL, steps);
            c in t.conns ==> c in s.conns && t.conns[c] == s.conns[c]
  {
    var init, last := steps[..|steps| - 1], steps[|steps| - 1];
    var s := Reach(INITIAL, init);
    if last.Mark? && last.w in s.workers {
      WorkerHoldsOwn(init, last.w);
    }
    StepLeavesConnection(s, last, c);
  }

  /**
   Stale refreshes are harmless. Over any stretch of a run without a successful
   mark by a refresh that began on it, a connection that is still there at the
   end is as it was: no refresh of another connection and nothing else alters it.
   */
  lemma {:induction false} StaleRefreshIsHarmless(steps: seq<Step>, n: nat, c: nat)
    requires n <= |steps| && c in Reach(INITIAL, steps[..n]).conns && c in Reach(INITIAL, steps).conns
    requires forall k :: n < k <= |steps| ==> !MarksOwn(steps[..k], c)
    ensures Reach(INITIAL, steps).conns[c] == Reach(INITIAL, steps[..n]).conns[c]
    decreases |steps|
  {
    assert steps[..|steps|] == steps;
    if n == |steps| {
    } else {
      var init := steps[..|steps| - 1];
      assert forall k :: 0 <= k <= |init| ==> init[..k] == steps[..k];
      OldIdsStay(steps, n, |steps| - 1, c);
      StepOnConnection(steps, c);
      StaleRefreshIsHarmless(init, n, c);
    }
  }

  lemma {:induction false} OldIdsStay(steps: seq<Step>, n: nat, m: nat, c: nat)
    requires n <= m <= |steps| && c in Reach(INITIAL, steps[..n]).conns
    ensures c < Reach(INITIAL, steps[..m]).nextConn
    decreases m
  {
    if n < m {
      OldIdsStay(steps, n, m - 1, c);
      assert steps[..m][..m - 1] == steps[..m - 1];
      StepKeepsIds(Reach(INITIAL, steps[..m - 1]), steps[m - 1]);
    } else {
      ReachKeepsHistory(steps[..n]);
    }
  }

  lemma StepKeepsIds(s: State, step: Step)
    ensures s.nextConn <= After(s, step).nextConn
  {}

  // ----- the accounts -----

  /** What the parent last chose for an account, or what it had. */
  function LastVisible(steps: seq<Step>, a: nat, was: bool): bool
    decreases |steps|
  {
    if steps == [] then was
    else
      var last := steps[|steps| - 1];
      if last.SetVisible? && last.account == a then last.visible else LastVisible(steps[..|steps| - 1], a, was)
  }

  function LastName(steps: seq<Step>, a: nat, was: Option<string>): Option<string>
    decreases |steps|
  {
    if steps == [] then was
    else
      var last := steps[|steps| - 1];
      if last.SetDisplayName? && last.account == a then (if last.name == "" then None else Some(last.name))
      else LastName(steps[..|steps| - 1], a, was)
  }

  /** A step keeps an account's choices but for the one it sets; removed accounts do not come back under their id. */
  lemma StepOnAccount(s: State, step: Step, a: nat)
    requires a < s.nextAccount
    ensures var t := After(s, step);
            && s.nextAccount <= t.nextAccount
            && (a in t.accounts ==>
                  && a in s.accounts && t.accounts[a].simplefinId == s.accounts[a].simplefinId
                  && t.accounts[a].visible ==
                       (if step.SetVisible? && step.account == a then step.visible else s.accounts[a].visible)
                  && t.accounts[a].displayName ==
                       (if step.SetDisplayName? && step.account == a
                        then (if step.name == "" then None else Some(step.name))
                        else s.accounts[a].displayName))
  {}

  /**
   An account that is there before and after a run has the visibility and the
   display name the parent set last in it, or those it had; no refresh, connect
   or crash changes them. Only a disconnect, which deletes the account, does.
   */
  lemma {:induction false} ChoicesStay(s: State, steps: seq<Step>, a: nat)
    requires a in s.accounts && a < s.nextAccount && a in Reach(s, steps).accounts
    ensures var t := Reach(s, steps);
            && t.accounts[a].simplefinId == s.accounts[a].simplefinId
            && t.accounts[a].visible == LastVisible(steps, a, s.accounts[a].visible)
            && t.accounts[a].displayName == LastName(steps, a, s.accounts[a].displayName)
    decreases |steps|
  {
    if steps == [] {
    } else {
      var init, last := steps[..|steps| - 1], steps[|steps| - 1];
      IdsGrow(s, init);
      StepOnAccount(Reach(s, init), last, a);
      ChoicesStay(s, init, a);
    }
  }

  lemma {:induction false} IdsGrow(s: State, steps: seq<Step>)
    ensures s.nextAccount <= Reach(s, steps).nextAccount
    decreases |steps|
  {
    if steps == [] {
    } else {
      IdsGrow(s, steps[..|steps| - 1]);
    }
  }

  // ----- what the bank reported -----

  /** The balance a step stores, if it stores one. */
  function StoredBy(s: State, step: Step): Option<Balance> {
    if step.Store? && step.ok && step.w in s.workers && s.workers[step.w].Storing? && s.workers[step.w].todo != []
    then Some(s.workers[step.w].todo[0]) else None
  }

  predicate Stores(s: State, step: Step, id: string) {
    StoredBy(s, step).Some? && StoredBy(s, step).value.simplefinId == id
  }

  /** The last balance of an account that a run has stored. */
  function LastStored(s: State, steps: seq<Step>, id: string): Option<Balance>
    decreases |steps|
  {
    if steps == [] then None
    else
      var n := |steps| - 1;
      var before := Reach(s, steps[..n]);
      if Stores(before, steps[n], id) then StoredBy(before, steps[n]) else LastStored(s, steps[..n], id)
  }

  predicate Shows(k: Account, b: Balance) {
    k.name == b.name && k.balanceCents == b.balanceCents
  }

  ghost predicate AccountsOk(s: State) {
    && (forall a :: a in s.accounts ==> a < s.nextAccount)
    && (forall a, b :: a in s.accounts && b in s.accounts && s.accounts[a].simplefinId == s.accounts[b].simplefinId ==>
          a == b)
  }

  lemma StepKeepsAccountsOk(s: State, step: Step)
    requires AccountsOk(s)
    ensures AccountsOk(After(s, step))
  {
    if StoredBy(s, step).Some? {
      UpsertKeepsAccountsOk(s, StoredBy(s, step).value);
    }
  }

  lemma UpsertKeepsAccountsOk(s: State, b: Balance)
    requires AccountsOk(s)
    ensures AccountsOk(Upserted(s, b))
  {
    if !HasAccount(s, b.simplefinId) {
      assert forall a :: a in s.accounts ==> s.accounts[a].simplefinId != b.simplefinId;
    }
  }

  /** One account over one step: it shows the balance stored for it, or what it showed. */
  lemma StepOnBalance(s: State, step: Step, a: nat)
    requires a in After(s, step).accounts
    ensures var k := After(s, step).accounts[a];
            if Stores(s, step, k.simplefinId) then Shows(k, StoredBy(s, step).value)
            else a in s.accounts && k.name == s.accounts[a].name && k.balanceCents == s.accounts[a].balanceCents
    ensures a in s.accounts && a < s.nextAccount ==> After(s, step).accounts[a].simplefinId == s.accounts[a].simplefinId
  {
    if StoredBy(s, step).Some? {
      UpsertOnBalance(s, StoredBy(s, step).value, a);
    }
  }

  lemma UpsertOnBalance(s: State, b: Balance, a: nat)
    requires a in Upserted(s, b).accounts
    ensures var k := Upserted(s, b).accounts[a];
            if k.simplefinId == b.simplefinId then Shows(k, b) else a in s.accounts && k == s.accounts[a]
    ensures a in s.accounts && a < s.nextAccount ==> Upserted(s, b).accounts[a].simplefinId == s.accounts[a].simplefinId
  {}

  /** An account comes up by storing a balance of an id that had none; it is visible and has no display name. */
  lemma NewAccountIsPlain(s: State, step: Step, a: nat)
    requires a !in s.accounts && a in After(s, step).accounts
    ensures var k := After(s, step).accounts[a];
            && a == s.nextAccount && k.visible && k.displayName == None
            && Stores(s, step, k.simplefinId) && !HasAccount(s, k.simplefinId)
  {}

  /**
   In every interleaving each account shows the name and balance last stored for
   its id, and no two accounts share an id.
   */
  lemma {:induction false} AccountsShowLastStored(steps: seq<Step>)
    ensures var s := Reach(INITIAL, steps);
            && AccountsOk(s)
            && forall a :: a in s.accounts ==>
                 var b := LastStored(INITIAL, steps, s.accounts[a].simplefinId);
                 b.Some? && Shows(s.accounts[a], b.value)
    decreases |steps|
  {
    if steps == [] {
    } else {
      var n := |steps| - 1;
      var before, s := Reach(INITIAL, steps[..n]), Reach(INITIAL, steps);
      AccountsShowLastStored(steps[..n]);
      StepKeepsAccountsOk(before, steps[n]);
      forall a | a in s.accounts
        ensures var b := LastStored(INITIAL, steps, s.accounts[a].simplefinId);
                b.Some? && Shows(s.accounts[a], b.value)
      {
        StepOnBalance(before, steps[n], a);
      }
    }
  }

  /** The same from any state: an account that was there shows what was stored since, or what it showed. */
  lemma {:induction false} BalancesFollow(s: State, steps: seq<Step>, a: nat)
    requires a in s.accounts && a < s.nextAccount && a in Reach(s, steps).accounts
    ensures var k, was, b := Reach(s, steps).accounts[a], s.accounts[a],
                                 LastStored(s, steps, s.accounts[a].simplefinId);
            && k.simplefinId == was.simplefinId
            && if b.Some? then Shows(k, b.value) else k.name == was.name && k.balanceCents == was.balanceCents
    decreases |steps|
  {
    if steps == [] {
    } else {
      var n := |steps| - 1;
      var before := Reach(s, steps[..n]);
      IdsGrow(s, steps[..n]);
      StepOnAccount(before, steps[n], a);
      BalancesFollow(s, steps[..n], a);
      StepOnBalance(before, steps[n], a);
    }
  }

  /** Storing so many balances one after the other. */
  function StoreSteps(w: nat, n: nat): seq<Step> {
    if n == 0 then [] else StoreSteps(w, n - 1) + [Store(w, true)]
  }

  /** The first `n` balances are stored, the others are still to come. */
  ghost predicate StoredTo(t: State, w: nat, conn: nat, todo: seq<Balance>, n: nat)
    requires n <= |todo|
  {
    && AccountsOk(t) && w in t.workers && t.workers[w] == Storing(conn, todo[n..])
    && forall k :: 0 <= k < n ==> HasAccount(t, todo[k].simplefinId)
  }

  lemma OneMoreStored(t: State, w: nat, conn: nat, todo: seq<Balance>, n: nat)
    requires n < |todo| && StoredTo(t, w, conn, todo, n)
    ensures StoredTo(After(t, Store(w, true)), w, conn, todo, n + 1)
  {
    var u := After(t, Store(w, true));
    assert todo[n..][0] == todo[n] && todo[n..][1..] == todo[n + 1..];
    StepKeepsAccountsOk(t, Store(w, true));
    forall k | 0 <= k < n + 1
      ensures HasAccount(u, todo[k].simplefinId)
    {
      UpsertHasAccount(t, todo[n], todo[k].simplefinId);
    }
  }

  /** A refresh that nothing interleaves with stores every balance it fetched. */
  lemma {:induction false} EveryBalanceIsStored(s: State, w: nat, n: nat)
    requires AccountsOk(s) && w in s.workers && s.workers[w].Storing? && n <= |s.workers[w].todo|
    ensures StoredTo(Reach(s, StoreSteps(w, n)), w, s.workers[w].conn, s.workers[w].todo, n)
    decreases n
  {
    var k := s.workers[w];
    if n == 0 {
      assert k.todo[0..] == k.todo;
    } else {
      EveryBalanceIsStored(s, w, n - 1);
      assert (StoreSteps(w, n - 1) + [Store(w, true)])[..|StoreSteps(w, n - 1)|] == StoreSteps(w, n - 1);
      OneMoreStored(Reach(s, StoreSteps(w, n - 1)), w, k.conn, k.todo, n - 1);
    }
  }

  lemma UpsertHasAccount(s: State, b: Balance, id: string)
    requires forall a :: a in s.accounts ==> a < s.nextAccount
    requires HasAccount(s, id) || id == b.simplefinId
    ensures HasAccount(Upserted(s, b), id)
  {
    if HasAccount(s, id) {
      var a :| a in s.accounts && s.accounts[a].simplefinId == id;
      if HasAccount(s, b.simplefinId) {
        assert a in Upserted(s, b).accounts && Upserted(s, b).accounts[a].simplefinId == id;
      } else {
        assert a in Upserted(s, b).accounts && Upserted(s, b).accounts[a].simplefinId == id;
      }
    }
    if !HasAccount(s, b.simplefinId) {
      assert Upserted(s, b).accounts[s.nextAccount].simplefinId == b.simplefinId;
    }
  }

  // ----- after a disconnect -----

  /** The settings action: the connection first, then the accounts; refreshes in flight go on. */
  lemma DisconnectClears(s: State)
    ensures var t := After(After(s, Disconnect), DeleteAll); Disconnected(t) && t.workers == s.workers
  {}

  /** Something a refresh in flight may still store. */
  predicate Pending(k: Worker) {
    k.Holding? || (k.Storing? && k.todo != [])
  }

  ghost predicate Disconnected(s: State) {
    s.conns == map[] && s.accounts == map[]
  }

  ghost predicate NonePending(s: State) {
    forall w :: w in s.workers ==> !Pending(s.workers[w])
  }

  predicate NoConnect(steps: seq<Step>) {
    forall k :: 0 <= k < |steps| ==> !steps[k].Connect?
  }

  lemma StepKeepsNonePending(s: State, step: Step)
    requires Disconnected(s) && NonePending(s) && !step.Connect?
    ensures Disconnected(After(s, step)) && NonePending(After(s, step))
  {}

  lemma {:induction false} NothingComesBack(s: State, steps: seq<Step>)
    requires Disconnected(s) && NonePending(s) && NoConnect(steps)
    ensures Disconnected(Reach(s, steps)) && NonePending(Reach(s, steps))
    decreases |steps|
  {
    if steps == [] {
    } else {
      NothingComesBack(s, steps[..|steps| - 1]);
      StepKeepsNonePending(Reach(s, steps[..|steps| - 1]), steps[|steps| - 1]);
    }
  }

  /** A pending refresh stores an account in its next step or two. */
  lemma PendingStores(s: State, w: nat, b: Balance) returns (steps: seq<Step>)
    requires Disconnected(s) && w in s.workers && Pending(s.workers[w])
    ensures NoConnect(steps) && Reach(s, steps).accounts != map[]
  {
    var t := s;
    steps := [];
    if s.workers[w].Holding? {
      steps := [Fetched(w, [b])];
      t := After(s, Fetched(w, [b]));
      assert steps[..0] == [];
    }
    assert t == Reach(s, steps) && t.workers[w].Storing? && t.workers[w].todo != [] && t.accounts == map[];
    assert s.nextAccount in After(t, Store(w, true)).accounts;
    assert (steps + [Store(w, true)])[..|steps|] == steps;
    steps := steps + [Store(w, true)];
  }

  /**
   Disconnecting deletes the connection and the accounts. Until the next
   connect the accounts stay deleted in every continuation if and only if no
   refresh is in flight that waits for the bank's answer or has balances left
   to store.
   */
  lemma AccountsStayDeletedIff(s: State)
    requires Disconnected(s)
    ensures NonePending(s) <==> forall steps :: NoConnect(steps) ==> Reach(s, steps).accounts == map[]
  {
    if NonePending(s) {
      forall steps | NoConnect(steps)
        ensures Reach(s, steps).accounts == map[]
      {
        NothingComesBack(s, steps);
      }
    } else {
      var w :| w in s.workers && Pending(s.workers[w]);
      var steps := PendingStores(s, w, Balance("", "", 0));
    }
  }

  /**
   Disconnecting deletes the accounts, but a refresh in flight stores its
   balances afterwards: accounts without a connection.
   */
  lemma RefreshOutlivesDisconnect(b: Balance) returns (steps: seq<Step>)
    ensures var s := Reach(INITIAL, steps); s.conns == map[] && HasAccount(s, b.simplefinId)
  {
    var s1 := After(INITIAL, Connect("u"));
    var s2 := After(s1, Begin(0, 1));
    var s3 := After(s2, Fetched(0, [b]));
    var s4 := After(s3, Disconnect);
    var s5 := After(s4, DeleteAll);
    var s6 := After(s5, Store(0, true));
    assert 1 in s6.accounts && s6.accounts[1].simplefinId == b.simplefinId;
    steps := [Connect("u")] + [Begin(0, 1)] + [Fetched(0, [b])] + [Disconnect] + [DeleteAll] + [Store(0, true)];
    ReachMore([], Connect("u"));
    assert [] + [Connect("u")] == [Connect("u")];
    ReachMore([Connect("u")], Begin(0, 1));
    ReachMore([Connect("u")] + [Begin(0, 1)], Fetched(0, [b]));
    ReachMore([Connect("u")] + [Begin(0, 1)] + [Fetched(0, [b])], Disconnect);
    ReachMore([Connect("u")] + [Begin(0, 1)] + [Fetched(0, [b])] + [Disconnect], DeleteAll);
    ReachMore([Connect("u")] + [Begin(0, 1)] + [Fetched(0, [b])] + [Disconnect] + [DeleteAll], Store(0, true));
  }

  lemma ReachMore(steps: seq<Step>, step: Step)
    ensures Reach(INITIAL, steps + [step]) == After(Reach(INITIAL, steps), step)
  {
    assert (steps + [step])[..|steps|] == steps;
  }
}
