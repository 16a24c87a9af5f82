/**
 Every run of a tick's own steps, from its list to the end of it, leaves the
 tables of `Ticked` for some pattern of failing inserts; so what is said of
 `Ticked` holds of every tick that nothing interleaves with.
 */
module WholeTick {
  import opened Basics
  import opened Ledger
  import opened World
  import opened Refresh
  import opened Handlers
  import opened Effects
  import opened Undisturbed

  /** The clock of a day, with the failures so far, definition by definition. */
  function ClocksOf(fails: seq<Option<nat>>, today: int, lookahead: int): nat -> Clock {
    (n: nat) => Clock(today, lookahead, if n < |fails| then fails[n] else None)
  }

  lemma {:induction false} TickedAgrees(db: Db, todo: seq<Held>, f: nat -> Clock, g: nat -> Clock)
    requires InRangeAll(todo) && forall k: nat :: k < |todo| ==> f(k) == g(k)
    ensures Ticked(db, todo, f) == Ticked(db, todo, g)
    decreases |todo|
  {
    if todo == [] {
    } else {
      TickedAgrees(db, todo[..|todo| - 1], f, g);
    }
  }

  /** The tables after the definitions whose outcome is known. */
  ghost function TickedBy(db: Db, todo: seq<Held>, fails: seq<Option<nat>>, today: int, lookahead: int): Db
    requires InRangeAll(todo) && |fails| <= |todo|
  {
    Ticked(db, todo[..|fails|], ClocksOf(fails, today, lookahead))
  }

  /** One more definition: its inserts up to the failing one, or all of them. */
  lemma TickedByOneMore(db: Db, todo: seq<Held>, fails: seq<Option<nat>>, fail: Option<nat>, today: int, lookahead: int)
    requires InRangeAll(todo) && |fails| < |todo|
    ensures var h := todo[|fails|];
            TickedBy(db, todo, fails + [fail], today, lookahead)
            == GeneratedFor(TickedBy(db, todo, fails, today, lookahead),
                            h.id, h.def.plan, Clock(today, lookahead, fail))
  {
    var n := |fails|;
    assert todo[..n + 1][..n] == todo[..n];
    TickedAgrees(db, todo[..n], ClocksOf(fails, today, lookahead), ClocksOf(fails + [fail], today, lookahead));
  }

  // ----- where a tick can be -----

  /** Between two definitions. */
  ghost predicate AtList(db: Db, t: World, w: nat, todo: seq<Held>, fails: seq<Option<nat>>, today: int, lookahead: int)
    requires InRangeAll(todo)
  {
    && |fails| <= |todo| && t.today == today
    && w in t.workers && t.workers[w] == Listed(todo[|fails|..])
    && t.db == TickedBy(db, todo, fails, today, lookahead)
  }

  /** After `m` inserts for one. */
  ghost predicate AtInsert(db: Db, t: World, w: nat, todo: seq<Held>, fails: seq<Option<nat>>, m: nat, today: int,
                           lookahead: int)
    requires InRangeAll(todo)
  {
    && |fails| < |todo| && t.today == today
    && var h := todo[|fails|];
    var dates := Window(h.def.plan, today, lookahead);
    && m <= |dates|
    && w in t.workers && t.workers[w] == Generating(h.id, h.def.plan, today, dates[m..], todo[|fails| + 1..])
    && t.db == Generated(TickedBy(db, todo, fails, today, lookahead), h.id, dates[..m])
  }

  ghost predicate At(db: Db, t: World, w: nat, todo: seq<Held>, fails: seq<Option<nat>>, m: nat, today: int,
                     lookahead: int)
    requires InRangeAll(todo)
  {
    AtList(db, t, w, todo, fails, today, lookahead) || AtInsert(db, t, w, todo, fails, m, today, lookahead)
  }

  lemma BeginMoves(db: Db, t: World, w: nat, todo: seq<Held>, fails: seq<Option<nat>>, today: int, lookahead: int)
    requires InRangeAll(todo) && AtList(db, t, w, todo, fails, today, lookahead)
    ensures At(db, After(t, Begin(w), lookahead), w, todo, fails, 0, today, lookahead)
  {
    var n := |fails|;
    if n < |todo| {
      var dates := Window(todo[n].def.plan, today, lookahead);
      assert todo[n..][0] == todo[n] && todo[n..][1..] == todo[n + 1..];
      assert dates[0..] == dates && dates[..0] == [];
    }
  }

  /** The definition is done with; what is left is the list. */
  lemma Leaves(db: Db, t: World, u: World, w: nat, todo: seq<Held>, fails: seq<Option<nat>>, m: nat, fail: Option<nat>,
               today: int, lookahead: int)
    requires InRangeAll(todo) && AtInsert(db, t, w, todo, fails, m, today, lookahead)
    requires fail == Some(m) || (fail == None && m == |Window(todo[|fails|].def.plan, today, lookahead)|)
    requires u.db == t.db && u.today == t.today && w in u.workers && u.workers[w] == Listed(todo[|fails| + 1..])
    ensures AtList(db, u, w, todo, fails + [fail], today, lookahead)
  {
    var dates := Window(todo[|fails|].def.plan, today, lookahead);
    TickedByOneMore(db, todo, fails, fail, today, lookahead);
    assert dates[..|dates|] == dates;
  }

  lemma InsertGoesOn(db: Db, t: World, w: nat, todo: seq<Held>, fails: seq<Option<nat>>, m: nat,
                     today: int, lookahead: int)
    requires InRangeAll(todo) && AtInsert(db, t, w, todo, fails, m, today, lookahead)
    requires t.workers[w].dates != [] && t.workers[w].id in t.db.defs
    ensures AtInsert(db, After(t, EnsureNext(w, true), lookahead), w, todo, fails, m + 1, today, lookahead)
  {
    var dates := Window(todo[|fails|].def.plan, today, lookahead);
    assert dates[m..][0] == dates[m] && dates[m..][1..] == dates[m + 1..] && dates[..m + 1][..m] == dates[..m];
  }

  lemma InsertFails(db: Db, t: World, w: nat, ok: bool, todo: seq<Held>, fails: seq<Option<nat>>, m: nat,
                    today: int, lookahead: int)
    requires InRangeAll(todo) && AtInsert(db, t, w, todo, fails, m, today, lookahead)
    requires t.workers[w].dates != [] && !(ok && t.workers[w].id in t.db.defs)
    ensures AtList(db, After(t, EnsureNext(w, ok), lookahead), w, todo, fails + [Some(m)], today, lookahead)
  {
    Leaves(db, t, After(t, EnsureNext(w, ok), lookahead), w, todo, fails, m, Some(m), today, lookahead);
  }

  lemma NothingToInsert(t: World, w: nat, ok: bool, lookahead: int)
    requires w in t.workers && t.workers[w].Generating? && t.workers[w].dates == []
    ensures After(t, EnsureNext(w, ok), lookahead) == t
  {}

  lemma InsertMoves(db: Db, t: World, w: nat, ok: bool, todo: seq<Held>, fails: seq<Option<nat>>, m: nat, today: int,
                    lookahead: int)
    returns (fails': seq<Option<nat>>, m': nat)
    requires InRangeAll(todo) && AtInsert(db, t, w, todo, fails, m, today, lookahead)
    ensures At(db, After(t, EnsureNext(w, ok), lookahead), w, todo, fails', m', today, lookahead)
  {
    if t.workers[w].dates == [] {
      NothingToInsert(t, w, ok, lookahead);
      fails', m' := fails, m;
    } else if ok && t.workers[w].id in t.db.defs {
      InsertGoesOn(db, t, w, todo, fails, m, today, lookahead);
      fails', m' := fails, m + 1;
    } else {
      InsertFails(db, t, w, ok, todo, fails, m, today, lookahead);
      fails', m' := fails + [Some(m)], m;
    }
  }

  lemma FinishMoves(db: Db, t: World, w: nat, todo: seq<Held>, fails: seq<Option<nat>>, m: nat, today: int,
                    lookahead: int)
    returns (fails': seq<Option<nat>>)
    requires InRangeAll(todo) && AtInsert(db, t, w, todo, fails, m, today, lookahead)
    ensures At(db, After(t, Finish(w), lookahead), w, todo, fails', m, today, lookahead)
  {
    fails' := fails;
    if t.workers[w].dates == [] {
      fails' := fails + [None];
      Leaves(db, t, FinishStep(t, w), w, todo, fails, m, None, today, lookahead);
    }
  }

  /** At the list the other two steps do nothing. */
  lemma ListMoves(db: Db, t: World, w: nat, step: Step, todo: seq<Held>, fails: seq<Option<nat>>, m: nat,
                  today: int, lookahead: int)
    requires InRangeAll(todo) && IsOwn(step, w) && AtList(db, t, w, todo, fails, today, lookahead)
    ensures At(db, After(t, step, lookahead), w, todo, fails, if step.Begin? then 0 else m, today, lookahead)
  {
    if step.Begin? {
      BeginMoves(db, t, w, todo, fails, today, lookahead);
    } else {
      IdleAtList(t, w, step, lookahead);
    }
  }

  lemma IdleAtList(t: World, w: nat, step: Step, lookahead: int)
    requires w in t.workers && t.workers[w].Listed? && IsOwn(step, w) && !step.Begin?
    ensures After(t, step, lookahead) == t
  {}

  lemma IdleAtInserts(t: World, w: nat, lookahead: int)
    requires w in t.workers && t.workers[w].Generating?
    ensures After(t, Begin(w), lookahead) == t
  {}

  /** During the inserts a new beginning does nothing. */
  lemma InsertsMove(db: Db, t: World, w: nat, step: Step, todo: seq<Held>, fails: seq<Option<nat>>, m: nat,
                    today: int, lookahead: int)
    returns (fails': seq<Option<nat>>, m': nat)
    requires InRangeAll(todo) && IsOwn(step, w) && AtInsert(db, t, w, todo, fails, m, today, lookahead)
    ensures At(db, After(t, step, lookahead), w, todo, fails', m', today, lookahead)
  {
    fails', m' := fails, m;
    if step.EnsureNext? {
      fails', m' := InsertMoves(db, t, w, step.ok, todo, fails, m, today, lookahead);
    } else if step.Finish? {
      fails' := FinishMoves(db, t, w, todo, fails, m, today, lookahead);
    } else {
      IdleAtInserts(t, w, lookahead);
    }
  }

  lemma OwnStepMoves(db: Db, t: World, w: nat, step: Step, todo: seq<Held>, fails: seq<Option<nat>>, m: nat,
                     today: int, lookahead: int)
    returns (fails': seq<Option<nat>>, m': nat)
    requires InRangeAll(todo) && IsOwn(step, w) && At(db, t, w, todo, fails, m, today, lookahead)
    ensures At(db, After(t, step, lookahead), w, todo, fails', m', today, lookahead)
  {
    if AtList(db, t, w, todo, fails, today, lookahead) {
      ListMoves(db, t, w, step, todo, fails, m, today, lookahead);
      fails', m' := fails, if step.Begin? then 0 else m;
    } else {
      fails', m' := InsertsMove(db, t, w, step, todo, fails, m, today, lookahead);
    }
  }

  lemma {:induction false} OwnStepsMove(s: World, w: nat, steps: seq<Step>, lookahead: int)
    returns (fails: seq<Option<nat>>, m: nat)
    requires w in s.workers && s.workers[w].Listed? && InRangeAll(s.workers[w].todo) && AllOwn(steps, w)
    ensures At(s.db, Reach(s, steps, lookahead), w, s.workers[w].todo, fails, m, s.today, lookahead)
    decreases |steps|
  {
    var todo := s.workers[w].todo;
    if steps == [] {
      fails, m := [], 0;
      assert todo[0..] == todo && todo[..0] == [];
    } else {
      var n := |steps| - 1;
      fails, m := OwnStepsMove(s, w, steps[..n], lookahead);
      fails, m := OwnStepMoves(s.db, Reach(s, steps[..n], lookahead), w, steps[n], todo, fails, m, s.today, lookahead);
    }
  }

  // ----- the end of the list -----

  /**
   A tick that nothing interleaves with, however it goes: once its list is
   empty, the tables are those of `Ticked` for some pattern of failures. So
   every listed bill whose inserts went through has its window, and nothing was
   added but due dates.
   */
  lemma WholeTickIsTicked(s: World, w: nat, steps: seq<Step>, lookahead: int) returns (clocks: nat -> Clock)
    requires w in s.workers && s.workers[w].Listed? && InRangeAll(s.workers[w].todo) && AllOwn(steps, w)
    requires var t := Reach(s, steps, lookahead); w in t.workers && t.workers[w] == Listed([])
    ensures forall k: nat :: clocks(k).today == s.today && clocks(k).lookahead == lookahead
    ensures Reach(s, steps, lookahead).db == Ticked(s.db, s.workers[w].todo, clocks)
    ensures Valid(s.db) ==> TickEffect(s.db, Reach(s, steps, lookahead).db, s.workers[w].todo, clocks)
  {
    var todo := s.workers[w].todo;
    var fails, m := OwnStepsMove(s, w, steps, lookahead);
    clocks := ClocksOf(fails, s.today, lookahead);
    assert |todo[|fails|..]| == 0 && todo[..|fails|] == todo;
    if Valid(s.db) {
      TickDoes(s.db, todo, clocks);
    }
  }
}
