/**
 Which files a second run leaves alone whatever vendors answered in the first:
 those that do not give one name a schedule and, after it, a connector that can
 log in. For every other file some answer is overwritten by the second run.
 */
module MixedFile {
  import opened Basics
  import opened Civil
  import opened Schedule
  import opened Ledger
  import opened World
  import opened Entries
  import opened Refresh
  import opened Handlers
  import opened Reconcile
  import opened Footprint
  import opened ReconcileResult
  import opened ReconcileNames
  import opened ReconcileExact
  import opened LastKnown

  // ----- sync times -----

  /** No connection is stamped later than `now`. */
  ghost predicate StampsBy(conns: map<nat, Connection>, now: int) {
    forall c :: c in conns && conns[c].syncedAt.Some? ==> conns[c].syncedAt.value <= now
  }

  lemma {:induction false} SomeTimeIsLater(conns: map<nat, Connection>) returns (now: int)
    ensures StampsBy(conns, now)
    decreases |conns|
  {
    if conns == map[] {
      now := 0;
    } else {
      var c :| c in conns;
      var rest := conns - {c};
      assert |rest.Keys| < |conns.Keys| by {
        assert rest.Keys == conns.Keys - {c};
      }
      now := SomeTimeIsLater(rest);
      assert forall d :: d in conns && d != c ==> d in rest && rest[d] == conns[d];
      if conns[c].syncedAt.Some? && conns[c].syncedAt.value > now {
        now := conns[c].syncedAt.value;
      }
    }
  }

  lemma UpsertKeepsStampsBy(db: Db, id: nat, login: Login, now: int)
    requires StampsBy(db.conns, now)
    ensures StampsBy(Upserted(db, id, login).conns, now)
  {}

  lemma RefreshKeepsStampsBy(db: Db, conn: nat, id: nat, answer: Fetched, now: int, health: Health, bound: int)
    requires StampsBy(db.conns, bound) && now <= bound
    ensures StampsBy(RefreshedNow(db, conn, id, answer, now, health).conns, bound)
  {
    if answer.Snapshot? {
      RecordedKeepsConns(db, Report(id, answer.amountCents, answer.due), health);
    }
  }

  lemma AttachKeepsStampsBy(db: Db, id: nat, e: Entry, i: nat, env: Env, bound: int)
    requires StampsBy(db.conns, bound) && env.now(i) <= bound
    ensures StampsBy(Attached(db, id, e, i, env).conns, bound)
  {
    if Usable(e) {
      var login := Login(e.connector, e.tenant, e.username, e.password.value);
      var db1 := Upserted(db, id, login);
      UpsertKeepsStampsBy(db, id, login, bound);
      if HasConn(db1, id) {
        RefreshKeepsStampsBy(db1, ConnOf(db1, id), id, env.fetch(i), env.now(i), env.health(i), bound);
      }
    }
  }

  lemma FollowUpKeepsStampsBy(db: Db, id: nat, plan: Plan, e: Entry, i: nat, env: Env, bound: int)
    requires Valid(db) && InRange(plan) && StampsBy(db.conns, bound) && env.now(i) <= bound
    ensures StampsBy(FollowUp(db, id, plan, e, i, env).conns, bound)
  {
    if e.connector != "" {
      AttachKeepsStampsBy(db, id, e, i, env, bound);
    } else {
      GeneratedFollows(db, id, Written(Window(plan, env.today, env.lookahead), env.rowsFail(i)));
    }
  }

  lemma EntryKeepsStampsBy(db: Db, e: Entry, i: nat, env: Env, bound: int)
    requires Valid(db) && IsChooser(env.pick) && StampsBy(db.conns, bound) && env.now(i) <= bound
    ensures StampsBy(EntryDone(db, e, i, env).conns, bound)
  {
    if FromEntry(e).Some? {
      EntryMeetsCheck(e);
      var def := FromEntry(e).value;
      if Named(db, e.name) == {} {
        CreateKeepsValid(db, def.(managed := true));
        FollowUpKeepsStampsBy(Created(db, def.(managed := true)), db.nextDef, def.plan, e, i, env, bound);
      } else {
        var id := env.pick(i, Named(db, e.name));
        var def' := Incoming(def, e, db.defs[id]);
        UpdateKeepsValid(db, id, def');
        FollowUpKeepsStampsBy(UpdatedBootstrap(db, id, def'), id, def.plan, e, i, env, bound);
      }
    }
  }

  lemma {:induction false} EntriesKeepStampsBy(db: Db, entries: seq<Entry>, env: Env, bound: int)
    requires Valid(db) && IsChooser(env.pick) && StampsBy(db.conns, bound)
    requires forall i: nat :: i < |entries| ==> env.now(i) <= bound
    ensures StampsBy(EntriesDone(db, entries, env).conns, bound)
    decreases |entries|
  {
    if entries == [] {
    } else {
      var n := |entries| - 1;
      EntriesKeepStampsBy(db, entries[..n], env, bound);
      EntriesKeepUi(db, entries[..n], env);
      EntryKeepsStampsBy(EntriesDone(db, entries[..n], env), entries[n], n, env, bound);
    }
  }

  // ----- an answer that the first run takes -----

  /** Where every stamp is stale, a successful answer sets the amount. */
  lemma AnswerSetsAmount(db: Db, id: nat, e: Entry, i: nat, env: Env)
    requires Valid(db) && id in db.defs && Usable(e) && Calm(env)
    requires StampsBy(db.conns, env.now(i) - env.interval)
    requires env.fetch(i).Snapshot? && Works(env.fetch(i), env.health(i))
    ensures var b := Attached(db, id, e, i, env);
            id in b.defs && b.defs[id] == db.defs[id].(amountCents := env.fetch(i).amountCents)
  {
    var login := Login(e.connector, e.tenant, e.username, e.password.value);
    var db1 := Upserted(db, id, login);
    UpsertedFollows(db, id, login);
    UpsertKeepsStampsBy(db, id, login, env.now(i) - env.interval);
    var c := ConnOf(db1, id);
    assert !Fresh(db1.conns[c].syncedAt, env.now(i), env.interval);
    RecordedTables(db1, Report(id, env.fetch(i).amountCents, env.fetch(i).due), env.health(i));
  }

  /** The last entry of a mixed name that can log in, once the name's row is there. */
  lemma {:induction false} OvertakenAt(entries: seq<Entry>, name: string) returns (k: nat)
    requires Mixed(entries, name)
    ensures k < |entries| && IsValidNamed(entries[k], name) && entries[k].connector != "" && Usable(entries[k])
    ensures Seen(entries[..k], name)
    ensures forall j :: k < j < |entries| && IsValidNamed(entries[j], name) ==> entries[j].connector != ""
    decreases |entries|
  {
    var n := |entries| - 1;
    if IsValidNamed(entries[n], name) && Usable(entries[n]) {
      k := n;
      LastIsLastScheduled(entries[..n], name);
      SeenHasLast(entries[..n], name);
    } else {
      k := OvertakenAt(entries[..n], name);
      assert entries[..n][..k] == entries[..k];
      assert forall j :: 0 <= j < n ==> entries[..n][j] == entries[j];
    }
  }

  /** The bill is file-managed, and stands at that amount. */
  predicate StandsAt(db: Db, id: nat, name: string, amountCents: int) {
    Owns(db, id, name) && db.defs[id].managed && db.defs[id].amountCents == amountCents
  }

  lemma EntryTakesAnswer(mid: Db, file: seq<Entry>, e: Entry, i: nat, env: Env, id: nat)
    requires Valid(mid) && Alone(mid, file) && Seen(file, e.name) && Calm(env) && FromEntry(e).Some?
    requires FitsInteger(e.amountCents)
    requires e.connector != "" && Usable(e) && Owns(mid, id, e.name) && mid.defs[id].managed
    requires StampsBy(mid.conns, env.now(i) - env.interval)
    requires env.fetch(i).Snapshot? && Works(env.fetch(i), env.health(i))
    ensures StandsAt(EntryDone(mid, e, i, env), id, e.name, env.fetch(i).amountCents)
  {
    assert Named(mid, e.name) == {id};
    OldEntryIs(mid, e, i, env, id);
    var def' := Incoming(FromEntry(e).value, e, mid.defs[id]);
    UpdateKeepsValid(mid, id, def');
    AnswerSetsAmount(UpdatedBootstrap(mid, id, def'), id, e, i, env);
  }

  /** An entry of another name, or a connector entry that gets no answer, leaves the amount. */
  lemma EntryLeavesAmount(mid: Db, file: seq<Entry>, e: Entry, i: nat, env: Env, id: nat, name: string,
                          amountCents: int)
    requires Valid(mid) && Alone(mid, file) && Calm(env) && StandsAt(mid, id, name, amountCents) && env.fetch(i).Failed?
    requires FromEntry(e).Some? ==>
               Seen(file, e.name) && FitsInteger(e.amountCents) && (e.name == name ==> e.connector != "")
    ensures StandsAt(EntryDone(mid, e, i, env), id, name, amountCents)
  {
    if FromEntry(e).Some? {
      if UiName(mid, e.name) {
        UiNameIsSkippable(mid, file, e);
        UiEntryIsSkipped(mid, e, i, env);
      } else {
        var written := ManagedEntry(mid, file, e, i, env);
        if e.name == name {
          assert written == id;
        }
      }
    }
  }

  lemma ValidAndAlone(db: Db, entries: seq<Entry>, n: nat, env: Env)
    requires Valid(db) && Alone(db, entries) && Calm(env) && Fits(entries) && n <= |entries|
    ensures Valid(EntriesDone(db, entries[..n], env)) && Alone(EntriesDone(db, entries[..n], env), entries)
  {
    EntriesOutcome(db, entries[..n], entries, env);
  }

  lemma ValidIsSeen(entries: seq<Entry>, k: nat)
    requires k < |entries| && Fits(entries) && FromEntry(entries[k]).Some?
    ensures IsValidNamed(entries[k], entries[k].name) && Seen(entries, entries[k].name)
    ensures FitsInteger(entries[k].amountCents)
  {
    assert IsValidNamed(entries[k], entries[k].name);
  }

  /** It does so after the first `n` entries. */
  ghost predicate StandsAfter(db: Db, entries: seq<Entry>, n: nat, env: Env, id: nat, name: string, amountCents: int)
    requires n <= |entries| && IsChooser(env.pick)
  {
    StandsAt(EntriesDone(db, entries[..n], env), id, name, amountCents)
  }

  lemma NextLeavesAmount(db: Db, entries: seq<Entry>, n: nat, env: Env, id: nat, name: string, amountCents: int)
    requires Valid(db) && Alone(db, entries) && Calm(env) && Fits(entries) && n < |entries|
    requires StandsAfter(db, entries, n, env, id, name, amountCents) && env.fetch(n).Failed?
    requires IsValidNamed(entries[n], name) ==> entries[n].connector != ""
    ensures StandsAfter(db, entries, n + 1, env, id, name, amountCents)
  {
    assert entries[..n + 1][..n] == entries[..n];
    ValidAndAlone(db, entries, n, env);
    if FromEntry(entries[n]).Some? {
      ValidIsSeen(entries, n);
    }
    EntryLeavesAmount(EntriesDone(db, entries[..n], env), entries, entries[n], n, env, id, name, amountCents);
  }

  /** From an index on, no answers come and the name has no entry without connector. */
  ghost predicate QuietFrom(entries: seq<Entry>, k: nat, env: Env, name: string) {
    forall j: nat :: k <= j < |entries| ==>
      env.fetch(j).Failed? && (IsValidNamed(entries[j], name) ==> entries[j].connector != "")
  }

  lemma {:induction false} RestLeavesAmount(db: Db, entries: seq<Entry>, k: nat, n: nat, env: Env, id: nat,
                                            name: string, amountCents: int)
    requires Valid(db) && Alone(db, entries) && Calm(env) && Fits(entries) && k <= n <= |entries|
    requires StandsAfter(db, entries, k, env, id, name, amountCents) && QuietFrom(entries, k, env, name)
    ensures StandsAfter(db, entries, n, env, id, name, amountCents)
    decreases n
  {
    if k == n {
    } else {
      RestLeavesAmount(db, entries, k, n - 1, env, id, name, amountCents);
      NextLeavesAmount(db, entries, n - 1, env, id, name, amountCents);
    }
  }

  /** The entry at `k` gets an answer, an interval or more after the entries before it and after every stamp. */
  ghost predicate AnswerAt(db: Db, env: Env, k: nat) {
    && Calm(env) && env.fetch(k).Snapshot? && Works(env.fetch(k), env.health(k))
    && StampsBy(db.conns, env.now(k) - env.interval)
    && forall i: nat :: i < k ==> env.now(i) <= env.now(k) - env.interval
  }

  lemma TakesAnswerAt(db: Db, entries: seq<Entry>, env: Env, k: nat, name: string) returns (id: nat)
    requires Valid(db) && Alone(db, entries) && Fits(entries) && !UiName(db, name) && AnswerAt(db, env, k)
    requires k < |entries| && IsValidNamed(entries[k], name) && Seen(entries[..k], name)
    requires entries[k].connector != "" && Usable(entries[k])
    ensures StandsAfter(db, entries, k + 1, env, id, name, env.fetch(k).amountCents)
  {
    var mid := EntriesDone(db, entries[..k], env);
    ValidAndAlone(db, entries, k, env);
    EntriesKeepStampsBy(db, entries[..k], env, env.now(k) - env.interval);
    EntriesTakeNames(db, entries[..k], env, name);
    id :| Owns(mid, id, name) && mid.defs[id].managed;
    ValidIsSeen(entries, k);
    EntryTakesAnswer(mid, entries, entries[k], k, env, id);
    assert entries[..k + 1][..k] == entries[..k];
  }

  lemma FirstRunTakesAnswer(db: Db, entries: seq<Entry>, env: Env, k: nat, name: string) returns (id: nat)
    requires Valid(db) && Alone(db, entries) && Fits(entries) && !UiName(db, name) && AnswerAt(db, env, k)
    requires k < |entries| && IsValidNamed(entries[k], name) && Seen(entries[..k], name)
    requires entries[k].connector != "" && Usable(entries[k])
    requires QuietFrom(entries, k + 1, env, name)
    ensures StandsAt(EntriesDone(db, entries, env), id, name, env.fetch(k).amountCents)
  {
    id := TakesAnswerAt(db, entries, env, k, name);
    assert entries[..|entries|] == entries;
    RestLeavesAmount(db, entries, k + 1, |entries|, env, id, name, env.fetch(k).amountCents);
  }

  // ----- the exact condition -----

  ghost function AnyOf(s: set<nat>): nat {
    if s == {} then 0 else var x :| x in s; x
  }

  /** No store call fails, stamps included, and the clock does not run backwards. */
  ghost predicate IsOrderly(env: Env) {
    && Calm(env) && env.interval > 0 && (forall i: nat :: env.health(i).stamp)
    && forall i: nat, j: nat :: i <= j ==> env.now(i) <= env.now(j)
  }

  /** Two orderly runs one after the other on one day, the second without vendor answers. */
  ghost predicate TwoRuns(db: Db, env: Env, env': Env) {
    && IsOrderly(env) && IsOrderly(env') && NoAnswers(env')
    && env'.today == env.today && env'.lookahead == env.lookahead && env'.interval == env.interval
    && StampsBy(db.conns, env.now(0)) && forall i: nat :: env.now(i) <= env'.now(0)
  }

  /** Two runs with one answer, to the entry at `k`, an interval after the entries before it. */
  lemma RunsWithOneAnswer(db: Db, k: nat, amountCents: int, start: int, today: int, lookahead: int, interval: int)
    returns (env: Env, env': Env)
    requires StampsBy(db.conns, start) && FitsInteger(amountCents) && interval > 0
    ensures TwoRuns(db, env, env') && AnswerAt(db, env, k) && env.fetch(k).amountCents == amountCents
    ensures forall j: nat :: j != k ==> env.fetch(j).Failed?
    ensures env.today == today && env.lookahead == lookahead && env.interval == interval
  {
    env := Env((i, s) => AnyOf(s), (i, s) => true, i => None,
               i => if i == k then Snapshot(amountCents, YMD(2026, 1, 1), "") else Failed("down"),
               i => Health(true, true, true),
               i => if i < k then start else start + interval, interval, today, lookahead);
    env' := env.(fetch := i => Failed("down"), now := i => start + interval);
  }

  /**
   A mixed name that the settings page does not use: on any day and for any
   interval, some answer in the first run makes the second change a bill. The
   answer comes an interval or more into the run.
   */
  lemma MixedFileIsNotIdempotent(db: Db, entries: seq<Entry>, name: string, today: int, lookahead: int, interval: int)
    returns (env: Env, env': Env)
    requires Valid(db) && Alone(db, entries) && Fits(entries) && Mixed(entries, name) && !UiName(db, name)
    requires interval > 0
    ensures TwoRuns(db, env, env') && env.today == today && env.lookahead == lookahead && env.interval == interval
    ensures var one := Reconciled(db, entries, env); Reconciled(one, entries, env').defs != one.defs
  {
    var k := OvertakenAt(entries, name);
    var start := SomeTimeIsLater(db.conns);
    var amount := if LastScheduled(entries, name).value.amountCents == 0 then 1 else 0;
    env, env' := RunsWithOneAnswer(db, k, amount, start, today, lookahead, interval);
    var id := FirstRunTakesAnswer(db, entries, env, k, name);
    AmountIsUnsettled(db, entries, env, id, name, amount);
    ReconcileAgain(db, entries, env, env');
  }

  lemma AmountIsUnsettled(db: Db, entries: seq<Entry>, env: Env, id: nat, name: string, amountCents: int)
    requires IsChooser(env.pick) && StandsAt(EntriesDone(db, entries, env), id, name, amountCents)
    requires LastScheduled(entries, name).Some? && LastScheduled(entries, name).value.amountCents != amountCents
    ensures !AmountsSettled(Reconciled(db, entries, env), entries)
  {
    var done, one := EntriesDone(db, entries, env), Reconciled(db, entries, env);
    LastIsLastScheduled(entries, name);
    SeenHasLast(entries, name);
    assert id in one.defs && one.defs[id] == done.defs[id];
    assert !AmountSettled(one.defs[id], entries);
  }

  ghost predicate SameAgain(db: Db, entries: seq<Entry>, env: Env, env': Env) {
    TwoRuns(db, env, env') ==>
      Reconciled(Reconciled(db, entries, env), entries, env').defs == Reconciled(db, entries, env).defs
  }

  /**
   Running a file again leaves every definition as it is, whatever vendors
   answered in the first run, if and only if no name outside the settings page
   has an entry without connector and, after the last such entry, one that can
   log in.
   */
  lemma IdempotentIff(db: Db, entries: seq<Entry>)
    requires Valid(db) && Alone(db, entries) && Fits(entries)
    ensures (forall env: Env, env': Env :: SameAgain(db, entries, env, env')) <==> Unmixed(db, entries)
  {
    if Unmixed(db, entries) {
      forall env: Env, env': Env | TwoRuns(db, env, env')
        ensures SameAgain(db, entries, env, env')
      {
        UnmixedSettles(db, entries, env);
        ReconcileAgain(db, entries, env, env');
      }
    } else {
      var name :| !UiName(db, name) && Mixed(entries, name);
      var env, env' := MixedFileIsNotIdempotent(db, entries, name, 0, 0, 1);
      assert !SameAgain(db, entries, env, env');
    }
  }
}
