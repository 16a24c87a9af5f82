/**
 A worker of the running service that nothing interleaves with does what the
 functions of the tables say: the steps of `World` and the functions of
 `Refresh` and `Handlers` are about the same program.
 */
module Undisturbed {
  import opened Basics
  import opened Civil
  import opened Schedule
  import opened Ledger
  import opened World
  import opened Entries
  import opened Refresh
  import opened Handlers

  /** A run in two parts. */
  lemma {:induction false} ReachConcat(s: World, a: seq<Step>, b: seq<Step>, lookahead: int)
    ensures Reach(s, a + b, lookahead) == Reach(Reach(s, a, lookahead), b, lookahead)
    decreases |b|
  {
    if b == [] {
      assert a + b == a;
    } else {
      var n := |b| - 1;
      ReachConcat(s, a, b[..n], lookahead);
      assert (a + b)[..|a + b| - 1] == a + b[..n];
    }
  }

  lemma ReachOne(s: World, step: Step, lookahead: int)
    ensures Reach(s, [step], lookahead) == After(s, step, lookahead)
  {
    assert [step][..0] == [];
  }

  lemma ReachFirst(s: World, step: Step, rest: seq<Step>, lookahead: int)
    ensures Reach(s, [step] + rest, lookahead) == Reach(After(s, step, lookahead), rest, lookahead)
  {
    ReachOne(s, step, lookahead);
    ReachConcat(s, [step], rest, lookahead);
  }

  lemma ReachThen(s: World, steps: seq<Step>, last: Step, lookahead: int)
    ensures Reach(s, steps + [last], lookahead) == After(Reach(s, steps, lookahead), last, lookahead)
  {
    assert (steps + [last])[..|steps|] == steps;
  }

  // ----- generation -----

  lemma {:induction false} GeneratedKeepsDefs(db: Db, id: nat, dates: seq<Date>)
    ensures Generated(db, id, dates).defs == db.defs
    decreases |dates|
  {
    if dates == [] {
    } else {
      GeneratedKeepsDefs(db, id, dates[..|dates| - 1]);
    }
  }

  lemma {:induction false} GeneratedNowhere(db: Db, id: nat, dates: seq<Date>)
    requires id !in db.defs
    ensures Generated(db, id, dates) == db
    decreases |dates|
  {
    if dates == [] {
    } else {
      GeneratedNowhere(db, id, dates[..|dates| - 1]);
    }
  }

  function Inserts(w: nat, n: nat): seq<Step> {
    if n == 0 then [] else Inserts(w, n - 1) + [EnsureNext(w, true)]
  }

  /** A generation after some of its inserts. */
  function Inserting(s: World, w: nat, n: nat): World
    requires w in s.workers && s.workers[w].Generating? && n <= |s.workers[w].dates|
  {
    var k := s.workers[w];
    s.(db := Generated(s.db, k.id, k.dates[..n]), workers := s.workers[w := k.(dates := k.dates[n..])])
  }

  lemma InsertNext(s: World, w: nat, n: nat, lookahead: int)
    requires w in s.workers && s.workers[w].Generating? && s.workers[w].id in s.db.defs && n < |s.workers[w].dates|
    ensures After(Inserting(s, w, n), EnsureNext(w, true), lookahead) == Inserting(s, w, n + 1)
  {
    var k := s.workers[w];
    var dates := k.dates;
    GeneratedKeepsDefs(s.db, k.id, dates[..n]);
    assert dates[..n + 1][..n] == dates[..n] && dates[n..][1..] == dates[n + 1..] && dates[n..][0] == dates[n];
    assert Inserting(s, w, n).workers[w := k.(dates := dates[n + 1..])] == s.workers[w := k.(dates := dates[n + 1..])];
  }

  lemma NotYetInserting(s: World, w: nat)
    requires w in s.workers && s.workers[w].Generating?
    ensures Inserting(s, w, 0) == s
  {
    var k := s.workers[w];
    assert k.dates[..0] == [] && k.dates[0..] == k.dates && s.workers[w := k] == s.workers;
  }

  lemma {:induction false} InsertedSoFar(s: World, w: nat, n: nat, lookahead: int)
    requires w in s.workers && s.workers[w].Generating? && s.workers[w].id in s.db.defs && n <= |s.workers[w].dates|
    ensures Reach(s, Inserts(w, n), lookahead) == Inserting(s, w, n)
    decreases n
  {
    if n == 0 {
      NotYetInserting(s, w);
    } else {
      InsertedSoFar(s, w, n - 1, lookahead);
      ReachThen(s, Inserts(w, n - 1), EnsureNext(w, true), lookahead);
      InsertNext(s, w, n - 1, lookahead);
    }
  }

  /**
   From any point of a generation whose definition exists, the worker's own
   steps ensure the dates left, record it as completed and go on with the list;
   so the chains that `NoGaps` speaks of exist.
   */
  lemma GenerationCompletes(s: World, w: nat, lookahead: int)
    requires w in s.workers && s.workers[w].Generating? && s.workers[w].id in s.db.defs
    ensures var k := s.workers[w];
            Reach(s, Inserts(w, |k.dates|) + [Finish(w)], lookahead)
            == s.(db := Generated(s.db, k.id, k.dates), workers := s.workers[w := Listed(k.todo)],
                  done := s.done + {(k.id, k.plan, k.day)})
  {
    var k := s.workers[w];
    InsertedSoFar(s, w, |k.dates|, lookahead);
    ReachThen(s, Inserts(w, |k.dates|), Finish(w), lookahead);
    assert k.dates[..|k.dates|] == k.dates && k.dates[|k.dates|..] == [];
    assert s.workers[w := k.(dates := [])][w := Listed(k.todo)] == s.workers[w := Listed(k.todo)];
  }

  /** One whose insert number `n` fails leaves the dates before it. */
  lemma GenerationFails(s: World, w: nat, n: nat, lookahead: int)
    requires w in s.workers && s.workers[w].Generating? && s.workers[w].id in s.db.defs && n < |s.workers[w].dates|
    ensures var k := s.workers[w];
            Reach(s, Inserts(w, n) + [EnsureNext(w, false)], lookahead)
            == s.(db := Generated(s.db, k.id, k.dates[..n]), workers := s.workers[w := Listed(k.todo)])
  {
    var k := s.workers[w];
    InsertedSoFar(s, w, n, lookahead);
    ReachThen(s, Inserts(w, n), EnsureNext(w, false), lookahead);
    assert s.workers[w := k.(dates := k.dates[n..])][w := Listed(k.todo)] == s.workers[w := Listed(k.todo)];
  }

  /** The steps of a generation of `n` dates; for a definition that is gone the first insert ends it. */
  function GenerationSteps(w: nat, n: nat, rowsFail: Option<nat>, there: bool): seq<Step> {
    if !there then [if n == 0 then Finish(w) else EnsureNext(w, true)]
    else if rowsFail.Some? && rowsFail.value < n then Inserts(w, rowsFail.value) + [EnsureNext(w, false)]
    else Inserts(w, n) + [Finish(w)]
  }

  lemma GenerationDone(s: World, w: nat, rowsFail: Option<nat>, lookahead: int)
    requires w in s.workers && s.workers[w].Generating?
    ensures var k := s.workers[w];
            var t := Reach(s, GenerationSteps(w, |k.dates|, rowsFail, k.id in s.db.defs), lookahead);
            && t.db == Generated(s.db, k.id, Written(k.dates, rowsFail)) && t.today == s.today
            && w in t.workers && t.workers[w] == Listed(k.todo)
  {
    var k := s.workers[w];
    if k.id !in s.db.defs {
      GeneratedNowhere(s.db, k.id, Written(k.dates, rowsFail));
      ReachOne(s, if |k.dates| == 0 then Finish(w) else EnsureNext(w, true), lookahead);
    } else if rowsFail.Some? && rowsFail.value < |k.dates| {
      GenerationFails(s, w, rowsFail.value, lookahead);
    } else {
      GenerationCompletes(s, w, lookahead);
    }
  }

  /** The steps of a tick for one definition. */
  function OneDefinition(w: nat, h: Held, clock: Clock, there: bool): seq<Step>
    requires InRange(h.def.plan)
  {
    [Begin(w)] + GenerationSteps(w, |Window(h.def.plan, clock.today, clock.lookahead)|, clock.rowsFail, there)
  }

  lemma DefinitionDone(s: World, w: nat, clock: Clock)
    requires w in s.workers && s.workers[w].Listed? && s.workers[w].todo != []
    requires InRange(s.workers[w].todo[0].def.plan) && clock.today == s.today
    ensures var h := s.workers[w].todo[0];
            var t := Reach(s, OneDefinition(w, h, clock, h.id in s.db.defs), clock.lookahead);
            && t.db == GeneratedFor(s.db, h.id, h.def.plan, clock) && t.today == s.today
            && w in t.workers && t.workers[w] == Listed(s.workers[w].todo[1..])
  {
    var h := s.workers[w].todo[0];
    var n := |Window(h.def.plan, s.today, clock.lookahead)|;
    ReachFirst(s, Begin(w), GenerationSteps(w, n, clock.rowsFail, h.id in s.db.defs), clock.lookahead);
    GenerationDone(BeginStep(s, w, clock.lookahead), w, clock.rowsFail, clock.lookahead);
  }

  // ----- a tick -----

  /** A step that the tick's own worker takes. */
  predicate IsOwn(step: Step, w: nat) {
    step == Begin(w) || step == Finish(w) || (step.EnsureNext? && step.w == w)
  }

  predicate AllOwn(steps: seq<Step>, w: nat) {
    forall k :: 0 <= k < |steps| ==> IsOwn(steps[k], w)
  }

  lemma {:induction false} InsertsAreOwn(w: nat, n: nat)
    ensures AllOwn(Inserts(w, n), w)
    decreases n
  {
    if n == 0 {
    } else {
      InsertsAreOwn(w, n - 1);
    }
  }

  lemma OwnTogether(a: seq<Step>, b: seq<Step>, w: nat)
    requires AllOwn(a, w) && AllOwn(b, w)
    ensures AllOwn(a + b, w)
  {}

  lemma GenerationIsOwn(w: nat, n: nat, rowsFail: Option<nat>, there: bool)
    ensures AllOwn(GenerationSteps(w, n, rowsFail, there), w)
  {
    InsertsAreOwn(w, n);
    OwnTogether(Inserts(w, n), [Finish(w)], w);
    if rowsFail.Some? {
      InsertsAreOwn(w, rowsFail.value);
      OwnTogether(Inserts(w, rowsFail.value), [EnsureNext(w, false)], w);
    }
  }

  lemma DefinitionIsOwn(w: nat, h: Held, clock: Clock, there: bool)
    requires InRange(h.def.plan)
    ensures AllOwn(OneDefinition(w, h, clock, there), w)
  {
    var n := |Window(h.def.plan, clock.today, clock.lookahead)|;
    GenerationIsOwn(w, n, clock.rowsFail, there);
    OwnTogether([Begin(w)], GenerationSteps(w, n, clock.rowsFail, there), w);
  }

  /** The tick has come to definition `n` of its list. */
  ghost predicate TickedTo(db: Db, s: World, w: nat, todo: seq<Held>, n: nat, clocks: nat -> Clock)
    requires n <= |todo| && forall k :: 0 <= k < |todo| ==> InRange(todo[k].def.plan)
  {
    s.db == Ticked(db, todo[..n], clocks) && w in s.workers && s.workers[w] == Listed(todo[n..])
  }

  lemma TickedOneMore(db: Db, s: World, t: World, w: nat, todo: seq<Held>, n: nat, clocks: nat -> Clock)
    requires n < |todo| && forall k :: 0 <= k < |todo| ==> InRange(todo[k].def.plan)
    requires TickedTo(db, s, w, todo, n, clocks)
    requires t.db == GeneratedFor(s.db, todo[n].id, todo[n].def.plan, clocks(n))
    requires w in t.workers && t.workers[w] == Listed(s.workers[w].todo[1..])
    ensures TickedTo(db, t, w, todo, n + 1, clocks)
  {
    assert todo[n..][1..] == todo[n + 1..] && todo[..n + 1][..n] == todo[..n];
  }

  lemma TickNext(db: Db, s: World, w: nat, todo: seq<Held>, n: nat, clocks: nat -> Clock) returns (next: seq<Step>)
    requires n < |todo| && forall k :: 0 <= k < |todo| ==> InRange(todo[k].def.plan)
    requires TickedTo(db, s, w, todo, n, clocks) && clocks(n).today == s.today
    ensures var t := Reach(s, next, clocks(n).lookahead); TickedTo(db, t, w, todo, n + 1, clocks) && t.today == s.today
    ensures AllOwn(next, w)
  {
    var h := todo[n];
    next := OneDefinition(w, h, clocks(n), h.id in s.db.defs);
    DefinitionIsOwn(w, h, clocks(n), h.id in s.db.defs);
    assert s.workers[w].todo[0] == h;
    DefinitionDone(s, w, clocks(n));
    TickedOneMore(db, s, Reach(s, next, clocks(n).lookahead), w, todo, n, clocks);
  }

  lemma {:induction false} TickedSoFar(s: World, w: nat, n: nat, clocks: nat -> Clock, lookahead: int)
    returns (steps: seq<Step>)
    requires w in s.workers && s.workers[w].Listed? && n <= |s.workers[w].todo|
    requires forall k :: 0 <= k < |s.workers[w].todo| ==> InRange(s.workers[w].todo[k].def.plan)
    requires forall k: nat :: clocks(k).today == s.today && clocks(k).lookahead == lookahead
    ensures var t := Reach(s, steps, lookahead);
            TickedTo(s.db, t, w, s.workers[w].todo, n, clocks) && t.today == s.today
    ensures AllOwn(steps, w)
    decreases n
  {
    var todo := s.workers[w].todo;
    if n == 0 {
      steps := [];
      assert todo[0..] == todo && todo[..0] == [];
    } else {
      var before := TickedSoFar(s, w, n - 1, clocks, lookahead);
      var next := TickNext(s.db, Reach(s, before, lookahead), w, todo, n - 1, clocks);
      steps := before + next;
      ReachConcat(s, before, next, lookahead);
      OwnTogether(before, next, w);
    }
  }

  /** Whichever inserts are to fail, steps of the worker alone take it through its list, to the tables of `Ticked`. */
  lemma TickComputesTicked(s: World, w: nat, clocks: nat -> Clock, lookahead: int) returns (steps: seq<Step>)
    requires w in s.workers && s.workers[w].Listed?
    requires forall k :: 0 <= k < |s.workers[w].todo| ==> InRange(s.workers[w].todo[k].def.plan)
    requires forall k: nat :: clocks(k).today == s.today && clocks(k).lookahead == lookahead
    ensures var t := Reach(s, steps, lookahead);
            t.db == Ticked(s.db, s.workers[w].todo, clocks) && w in t.workers && t.workers[w] == Listed([])
    ensures AllOwn(steps, w)
  {
    var todo := s.workers[w].todo;
    steps := TickedSoFar(s, w, |todo|, clocks, lookahead);
    assert todo[..|todo|] == todo && todo[|todo|..] == [];
  }

  // ----- a bill added or edited -----

  /** The generation that a handler runs after its write. */
  lemma HandlerGenerates(s: World, w: nat, id: nat, def: Definition, clock: Clock)
    requires w in s.workers && s.workers[w] == Listed([Held(id, def)]) && InRange(def.plan) && clock.today == s.today
    ensures var t := Reach(s, OneDefinition(w, Held(id, def), clock, id in s.db.defs), clock.lookahead);
            t.db == GeneratedFor(s.db, id, def.plan, clock) && w in t.workers && t.workers[w] == Listed([])
  {
    DefinitionDone(s, w, clock);
  }

  /** The settings action that adds a bill: its steps compute `BillAdded`, whichever insert fails. */
  lemma AddComputesBillAdded(s: World, w: nat, form: Form, clock: Clock)
    requires FromForm(form).Some? && Storable(FromForm(form).value) && clock.today == s.today
    ensures var def, id := FromForm(form).value, s.db.nextDef;
            var t := Reach(s, [Add(w, def)] + OneDefinition(w, Held(id, def), clock, true), clock.lookahead);
            t.db == BillAdded(s.db, form, clock) && w in t.workers && t.workers[w] == Listed([])
  {
    var def, id := FromForm(form).value, s.db.nextDef;
    ReachFirst(s, Add(w, def), OneDefinition(w, Held(id, def), clock, true), clock.lookahead);
    HandlerGenerates(AddStep(s, w, def), w, id, def, clock);
  }

  /** The one that edits a bill: its steps compute `BillUpdated`. */
  lemma EditComputesBillUpdated(s: World, w: nat, id: nat, form: Form, clock: Clock)
    requires FromForm(form).Some? && Storable(FromForm(form).value) && clock.today == s.today
    requires id in s.db.defs && id < s.db.nextDef && !s.db.defs[id].managed
    ensures var def := FromForm(form).value;
            var t := Reach(s, [Edit(w, id, def)] + OneDefinition(w, Held(id, def), clock, true), clock.lookahead);
            t.db == BillUpdated(s.db, id, form, clock) && w in t.workers && t.workers[w] == Listed([])
  {
    var def := FromForm(form).value;
    ReachFirst(s, Edit(w, id, def), OneDefinition(w, Held(id, def), clock, true), clock.lookahead);
    HandlerGenerates(EditStep(s, w, id, def, Updated(s.db, id, def)), w, id, def, clock);
  }

  /** A scheduled entry of the file for a row that exists: name and managed flag stay, then generation. */
  lemma ReloadComputes(s: World, w: nat, id: nat, def: Definition, clock: Clock)
    requires Storable(def) && clock.today == s.today && id in s.db.defs && id < s.db.nextDef
    ensures var t := Reach(s, [Reload(w, id, def)] + OneDefinition(w, Held(id, def), clock, true), clock.lookahead);
            && t.db == GeneratedFor(UpdatedBootstrap(s.db, id, def), id, def.plan, clock)
            && w in t.workers && t.workers[w] == Listed([])
  {
    ReachFirst(s, Reload(w, id, def), OneDefinition(w, Held(id, def), clock, true), clock.lookahead);
    HandlerGenerates(EditStep(s, w, id, def, UpdatedBootstrap(s.db, id, def)), w, id, def, clock);
  }

  // ----- a refresh -----

  /** The steps of a refresh; those that a failed or empty answer skips do nothing. */
  function RefreshSteps(w: nat, answer: Fetched, now: int, health: Health): seq<Step> {
    [Fetch(w, answer)] + ([Price(w, health.price)] + ([Place(w, health.place)] + [Stamp(w, now, health.stamp)]))
  }

  lemma RefreshChain(s: World, w: nat, answer: Fetched, now: int, health: Health, lookahead: int)
    ensures Reach(s, RefreshSteps(w, answer, now, health), lookahead)
            == StampStep(PlaceStep(PriceStep(FetchStep(s, w, answer), w, health.price), w, health.place),
                         w, now, health.stamp)
  {
    var fetch, price := Fetch(w, answer), Price(w, health.price);
    var place, stamp := Place(w, health.place), Stamp(w, now, health.stamp);
    ReachFirst(s, fetch, [price] + ([place] + [stamp]), lookahead);
    ReachFirst(After(s, fetch, lookahead), price, [place] + [stamp], lookahead);
    ReachFirst(After(After(s, fetch, lookahead), price, lookahead), place, [stamp], lookahead);
    ReachOne(After(After(After(s, fetch, lookahead), price, lookahead), place, lookahead), stamp, lookahead);
  }

  /** What is written once the answer is in. */
  lemma AnswerRecorded(s: World, w: nat, health: Health)
    requires w in s.workers && s.workers[w].Pricing?
    ensures var k, t := s.workers[w], PlaceStep(PriceStep(s, w, health.price), w, health.place);
            && w in t.workers && t.workers[w] == Stamping(k.conn, k.account, None, k.conns)
            && t.db == (var priced := if health.price then Repriced(s.db, k.report.definition, k.report.amountCents)
                                      else s.db;
                        if k.report.amountCents > 0 && health.place
                        then Ensured(priced, k.report.definition, k.report.due) else priced)
  {}

  /** A refresh that nothing interleaves with computes `RefreshedNow`, whichever of its store calls fail. */
  lemma RefreshComputesRefreshedNow(s: World, w: nat, answer: Fetched, now: int, health: Health, lookahead: int)
    requires w in s.workers && s.workers[w].ListedConns? && s.workers[w].conns != []
    ensures var c := s.workers[w].conns[0];
            var t := Reach(s, RefreshSteps(w, answer, now, health), lookahead);
            && t.db == RefreshedNow(s.db, c.conn, c.definition, answer, now, health)
            && w in t.workers && t.workers[w] == ListedConns(s.workers[w].conns[1..])
  {
    RefreshChain(s, w, answer, now, health, lookahead);
    var fetched := FetchStep(s, w, answer);
    if answer.Snapshot? {
      AnswerRecorded(fetched, w, health);
    } else {
      assert PlaceStep(PriceStep(fetched, w, health.price), w, health.place) == fetched;
    }
  }

  // ----- days and crashes -----

  function Dawns(steps: seq<Step>): nat
    decreases |steps|
  {
    if steps == [] then 0 else Dawns(steps[..|steps| - 1]) + if steps[|steps| - 1] == Dawn then 1 else 0
  }

  /** The day is the first one and one more for each dawn. */
  lemma {:induction false} TodayCountsDawns(s: World, steps: seq<Step>, lookahead: int)
    ensures Reach(s, steps, lookahead).today == s.today + Dawns(steps)
    decreases |steps|
  {
    if steps == [] {
    } else {
      TodayCountsDawns(s, steps[..|steps| - 1], lookahead);
    }
  }

  /** The steps that go on with something begun. */
  predicate GoesOn(step: Step) {
    || step.Begin? || step.EnsureNext? || step.Finish?
    || step.Skip? || step.Fetch? || step.Price? || step.Place? || step.Stamp?
  }

  /** A crash ends everything under way: until something new is begun nothing is written. */
  lemma {:induction false} CrashEndsAll(s: World, steps: seq<Step>, lookahead: int)
    requires forall k :: 0 <= k < |steps| ==> GoesOn(steps[k])
    ensures Reach(After(s, Crash, lookahead), steps, lookahead) == s.(workers := map[])
    decreases |steps|
  {
    if steps == [] {
    } else {
      CrashEndsAll(s, steps[..|steps| - 1], lookahead);
    }
  }
}
