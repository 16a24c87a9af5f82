/**
 The exact outcome of a reconciliation when the store does not fail and each
 name of the file has at most one row, and when running it again changes
 nothing.
 */
module ReconcileExact {
  import opened Basics
  import opened Civil
  import opened Schedule
  import opened Ledger
  import opened World
  import opened Entries
  import opened Reconcile
  import opened Footprint
  import opened ReconcileResult
  import opened ReconcileNames

  /** A file-managed row whose name is in the file is the only row of that name. */
  ghost predicate Alone(db: Db, file: seq<Entry>) {
    forall a, b :: a in db.defs && b in db.defs && db.defs[a].managed && db.defs[a].name == db.defs[b].name ==>
      Seen(file, db.defs[a].name) ==> a == b
  }

  ghost predicate DistinctNames(db: Db) {
    forall a, b :: a in db.defs && b in db.defs && db.defs[a].name == db.defs[b].name ==> a == b
  }

  // ----- what the entries of one name say -----

  /** What an entry makes of the row of its name. */
  function Merged(prior: Option<Definition>, e: Entry): Definition
    requires FromEntry(e).Some?
  {
    var def := FromEntry(e).value;
    match prior
    case None => def.(managed := true)
    case Some(was) => Incoming(def, e, was).(name := was.name, managed := was.managed)
  }

  /** What the entries of a name, in order, make of its row when no vendor answers. */
  function Folded(prior: Option<Definition>, entries: seq<Entry>, name: string): Option<Definition>
    decreases |entries|
  {
    if entries == [] then prior
    else
      var n := |entries| - 1;
      var p := Folded(prior, entries[..n], name);
      if IsValidNamed(entries[n], name) then Some(Merged(p, entries[n])) else p
  }

  function LastValid(entries: seq<Entry>, name: string): (r: Option<Entry>)
    ensures r.Some? ==> IsValidNamed(r.value, name)
    decreases |entries|
  {
    if entries == [] then None
    else
      var n := |entries| - 1;
      if IsValidNamed(entries[n], name) then Some(entries[n]) else LastValid(entries[..n], name)
  }

  /** The last valid entry of a name that has no connector. */
  function LastScheduled(entries: seq<Entry>, name: string): Option<Entry>
    decreases |entries|
  {
    if entries == [] then None
    else
      var n := |entries| - 1;
      if IsValidNamed(entries[n], name) && entries[n].connector == "" then Some(entries[n])
      else LastScheduled(entries[..n], name)
  }

  /** After the last valid entry of the name without connector comes one that can log in. */
  predicate Overtaken(entries: seq<Entry>, name: string)
    decreases |entries|
  {
    if entries == [] then false
    else
      var n := |entries| - 1;
      if !IsValidNamed(entries[n], name) then Overtaken(entries[..n], name)
      else entries[n].connector != "" && (Usable(entries[n]) || Overtaken(entries[..n], name))
  }

  lemma {:induction false} SeenHasLast(entries: seq<Entry>, name: string)
    ensures Seen(entries, name) <==> LastValid(entries, name).Some?
    decreases |entries|
  {
    if entries == [] {
    } else {
      SeenPrefix(entries, name);
      SeenHasLast(entries[..|entries| - 1], name);
    }
  }

  /**
   The row of a name in the file ends up with the plan and link of the last
   valid entry of that name, and with the amount of the last one that has no
   connector, if there is one.
   */
  lemma {:induction false} FoldedIsLast(prior: Option<Definition>, entries: seq<Entry>, name: string)
    requires prior.Some? ==> prior.value.name == name && prior.value.managed
    ensures var f, last := Folded(prior, entries, name), LastValid(entries, name);
            && (f.Some? <==> prior.Some? || last.Some?)
            && (f.Some? ==> f.value.name == name && f.value.managed)
            && (last.None? ==> f == prior)
            && (last.Some? ==>
                  && f.value.plan == FromEntry(last.value).value.plan
                  && f.value.vendorURL == FromEntry(last.value).value.vendorURL)
            && (LastScheduled(entries, name).Some? ==>
                  f.Some? && f.value.amountCents == LastScheduled(entries, name).value.amountCents)
            && (LastScheduled(entries, name).None? && prior.Some? ==>
                  f.Some? && f.value.amountCents == prior.value.amountCents)
    decreases |entries|
  {
    if entries == [] {
    } else {
      var n := |entries| - 1;
      FoldedIsLast(prior, entries[..n], name);
      if IsValidNamed(entries[n], name) {
        EntryMeetsCheck(entries[n]);
      }
    }
  }

  // ----- one entry -----

  predicate SameButAmount(a: Definition, b: Definition) {
    a == b.(amountCents := a.amountCents)
  }

  ghost function Prior(db: Db, id: nat): Option<Definition> {
    if id in db.defs then Some(db.defs[id]) else None
  }

  /** The settings page owns the name: the entry is skipped. */
  lemma UiEntryIsSkipped(db: Db, e: Entry, i: nat, env: Env)
    requires Valid(db) && Calm(env) && FromEntry(e).Some? && UiName(db, e.name) && !ManagedName(db, e.name)
    ensures EntryDone(db, e, i, env) == db
  {
    EntryMeetsCheck(e);
    var u :| IsUi(db, u) && Owns(db, u, e.name);
    assert u in Named(db, e.name);
    var found := env.pick(i, Named(db, e.name));
    assert Owns(db, found, e.name);
  }

  /** What an entry does to the row of its name, once written. */
  ghost predicate Writes(a: Db, b: Db, id: nat, e: Entry, i: nat, env: Env)
    requires FromEntry(e).Some? && InRange(FromEntry(e).value.plan)
  {
    var plan := FromEntry(e).value.plan;
    && OnManaged(a, b, id) && Owns(b, id, e.name)
    && SameButAmount(b.defs[id], Merged(Prior(a, id), e))
    && (e.connector == "" || env.fetch(i).Failed? || !Usable(e) ==> b.defs[id] == Merged(Prior(a, id), e))
    && (e.connector == "" ==> HasWindow(b, id, plan, env.today, env.lookahead))
    && (e.connector != "" && env.fetch(i).Failed? ==> b.instances == a.instances)
    && (e.connector == "" && id in a.defs && HasWindow(a, id, plan, env.today, env.lookahead) ==>
          b.instances == a.instances)
  }

  lemma NewEntry(db: Db, e: Entry, i: nat, env: Env)
    requires Valid(db) && Calm(env) && FromEntry(e).Some? && FitsInteger(e.amountCents) && Named(db, e.name) == {}
    ensures InRange(FromEntry(e).value.plan) && Writes(db, EntryDone(db, e, i, env), db.nextDef, e, i, env)
  {
    NewEntryIs(db, e, i, env);
    EntryMeetsCheck(e);
    var def := FromEntry(e).value.(managed := true);
    CreateKeepsValid(db, def);
    CreatedThen(db, def, e, i, env);
    FollowUpFollows(Created(db, def), db.nextDef, def.plan, e, i, env);
  }

  lemma OldEntryIs(db: Db, e: Entry, i: nat, env: Env, id: nat)
    requires Valid(db) && Calm(env) && FromEntry(e).Some? && FitsInteger(e.amountCents)
    requires Named(db, e.name) == {id} && db.defs[id].managed
    ensures var def := FromEntry(e).value;
            var def' := Incoming(def, e, db.defs[id]);
            && InRange(def.plan) && Storable(def')
            && EntryDone(db, e, i, env) == FollowUp(UpdatedBootstrap(db, id, def'), id, def.plan, e, i, env)
  {
    EntryMeetsCheck(e);
    assert env.pick(i, Named(db, e.name)) == id;
  }

  lemma OldEntry(db: Db, e: Entry, i: nat, env: Env, id: nat)
    requires Valid(db) && Calm(env) && FromEntry(e).Some? && FitsInteger(e.amountCents)
    requires Named(db, e.name) == {id} && db.defs[id].managed
    ensures InRange(FromEntry(e).value.plan) && Writes(db, EntryDone(db, e, i, env), id, e, i, env)
  {
    OldEntryIs(db, e, i, env, id);
    var def := FromEntry(e).value;
    var def' := Incoming(def, e, db.defs[id]);
    var updated := UpdatedBootstrap(db, id, def');
    UpdateKeepsValid(db, id, def');
    UpdatedThen(db, id, def', def.plan, e, i, env);
    FollowUpFollows(updated, id, def.plan, e, i, env);
    if e.connector == "" && HasWindow(db, id, def.plan, env.today, env.lookahead) {
      WindowAgain(db, updated, id, def.plan, e, i, env);
    }
  }

  lemma WindowAgain(db: Db, updated: Db, id: nat, plan: Plan, e: Entry, i: nat, env: Env)
    requires InRange(plan) && env.rowsFail(i).None? && e.connector == "" && updated.instances == db.instances
    requires HasWindow(db, id, plan, env.today, env.lookahead)
    ensures FollowUp(updated, id, plan, e, i, env).instances == db.instances
  {
    var dates := Window(plan, env.today, env.lookahead);
    forall d: Date | d in dates
      ensures HasRow(updated, id, d)
    {
      SameInstancesSameRows(db, updated, id, d);
    }
    GeneratedAgain(updated, id, dates);
  }

  /** `id` is the row of the name: the one it had, or a new one where the name was free. */
  ghost predicate IsRowOf(a: Db, b: Db, id: nat, name: string) {
    && OnManaged(a, b, id) && Owns(b, id, name)
    && (if id in a.defs then a.defs[id].name == name else Free(a, name))
  }

  /** No other row of that name comes up. */
  ghost predicate OthersDiffer(a: Db, b: Db, id: nat, name: string) {
    && (forall d :: d in b.defs && d != id ==> d in a.defs && b.defs[d] == a.defs[d] && b.defs[d].name != name)
    && (forall d :: d in a.defs && d != id ==> d in b.defs)
  }

  lemma RowOfIsAlone(a: Db, b: Db, file: seq<Entry>, id: nat, name: string)
    requires Alone(a, file) && Seen(file, name) && IsRowOf(a, b, id, name)
    ensures OthersDiffer(a, b, id, name) && Alone(b, file)
  {}

  lemma ManagedEntry(db: Db, file: seq<Entry>, e: Entry, i: nat, env: Env) returns (id: nat)
    requires Valid(db) && Alone(db, file) && Seen(file, e.name) && Calm(env) && FromEntry(e).Some?
    requires FitsInteger(e.amountCents)
    requires !UiName(db, e.name)
    ensures InRange(FromEntry(e).value.plan) && Writes(db, EntryDone(db, e, i, env), id, e, i, env)
    ensures IsRowOf(db, EntryDone(db, e, i, env), id, e.name)
  {
    if Named(db, e.name) == {} {
      id := db.nextDef;
      NewEntry(db, e, i, env);
      assert forall d :: d in db.defs && db.defs[d].name == e.name ==> d in Named(db, e.name);
    } else {
      id :| id in Named(db, e.name);
      assert Owns(db, id, e.name) && !IsUi(db, id);
      assert Named(db, e.name) == {id};
      OldEntry(db, e, i, env, id);
    }
  }

  // ----- the whole file -----

  /** Definitions present before are still there under their id and name, with all their rows. */
  ghost predicate Kept(a: Db, b: Db) {
    && RowsStay(a, b)
    && (forall id :: id in a.defs ==>
          id in b.defs && b.defs[id].name == a.defs[id].name && b.defs[id].managed == a.defs[id].managed)
  }

  /** New definitions are file-managed, in the file, and under a name that was free. */
  ghost predicate NewInFile(a: Db, b: Db, entries: seq<Entry>) {
    forall id :: id in b.defs && id !in a.defs ==>
      b.defs[id].managed && Seen(entries, b.defs[id].name) && Free(a, b.defs[id].name)
  }

  ghost predicate AllThere(b: Db, entries: seq<Entry>) {
    forall name :: Seen(entries, name) ==> exists id :: Owns(b, id, name)
  }

  /** Every file-managed row is what its entries make of it, the amount aside. */
  ghost predicate Carries(a: Db, b: Db, entries: seq<Entry>) {
    forall id :: id in b.defs && b.defs[id].managed ==>
      var f := Folded(Prior(a, id), entries, b.defs[id].name);
      f.Some? && SameButAmount(b.defs[id], f.value)
  }

  /**
   The amount is that of the last entry without connector where no later one can
   log in; it is what the entries say where no vendor answered.
   */
  ghost predicate CarriesAmount(a: Db, b: Db, entries: seq<Entry>, env: Env) {
    forall id :: id in b.defs && b.defs[id].managed ==>
      var name := b.defs[id].name;
      var last, f := LastScheduled(entries, name), Folded(Prior(a, id), entries, name);
      && (last.Some? && !Overtaken(entries, name) ==> b.defs[id].amountCents == last.value.amountCents)
      && (NoAnswers(env) ==> f == Some(b.defs[id]))
  }

  /** No vendor is reached, or none answers. */
  ghost predicate NoAnswers(env: Env) {
    forall i: nat :: env.fetch(i).Failed?
  }

  ghost predicate HasWindows(b: Db, entries: seq<Entry>, env: Env) {
    forall k, id :: 0 <= k < |entries| && Owns(b, id, entries[k].name) ==> WindowOf(b, id, entries[k], env)
  }

  ghost predicate WindowOf(b: Db, id: nat, e: Entry, env: Env) {
    FromEntry(e).Some? && e.connector == "" && id in b.defs && b.defs[id].managed ==>
      var plan := FromEntry(e).value.plan;
      InRange(plan) ==> HasWindow(b, id, plan, env.today, env.lookahead)
  }

  ghost predicate Outcome(a: Db, b: Db, entries: seq<Entry>, env: Env) {
    && Valid(b) && UiSame(a, b)
    && Kept(a, b) && NewInFile(a, b, entries) && AllThere(b, entries)
    && Carries(a, b, entries) && CarriesAmount(a, b, entries, env) && HasWindows(b, entries, env)
  }

  lemma OutcomeAtStart(a: Db, env: Env)
    requires Valid(a)
    ensures Outcome(a, a, [], env)
  {}

  // An entry that is skipped: invalid, or its name belongs to the settings page.

  ghost predicate Skippable(b: Db, e: Entry) {
    FromEntry(e).Some? ==>
      && (exists u :: Owns(b, u, e.name))
      && (forall id :: id in b.defs && b.defs[id].managed ==> b.defs[id].name != e.name)
  }

  lemma SkippedNames(a: Db, b: Db, entries: seq<Entry>)
    requires entries != [] && Skippable(b, entries[|entries| - 1])
    requires NewInFile(a, b, entries[..|entries| - 1]) && AllThere(b, entries[..|entries| - 1])
    ensures NewInFile(a, b, entries) && AllThere(b, entries)
  {
    SeenGrows(entries);
  }

  lemma SkippedCarries(a: Db, b: Db, entries: seq<Entry>, env: Env)
    requires entries != [] && Skippable(b, entries[|entries| - 1])
    requires Carries(a, b, entries[..|entries| - 1]) && CarriesAmount(a, b, entries[..|entries| - 1], env)
    ensures Carries(a, b, entries) && CarriesAmount(a, b, entries, env)
  {
    var n := |entries| - 1;
    forall id | id in b.defs && b.defs[id].managed
      ensures Folded(Prior(a, id), entries, b.defs[id].name) == Folded(Prior(a, id), entries[..n], b.defs[id].name)
      ensures LastScheduled(entries, b.defs[id].name) == LastScheduled(entries[..n], b.defs[id].name)
      ensures Overtaken(entries, b.defs[id].name) == Overtaken(entries[..n], b.defs[id].name)
    {}
  }

  lemma SkippedWindows(b: Db, entries: seq<Entry>, env: Env)
    requires entries != [] && Skippable(b, entries[|entries| - 1]) && HasWindows(b, entries[..|entries| - 1], env)
    ensures HasWindows(b, entries, env)
  {
    var n := |entries| - 1;
    forall k, id | 0 <= k < |entries| && Owns(b, id, entries[k].name)
      ensures WindowOf(b, id, entries[k], env)
    {
      if k < n {
        assert entries[..n][k] == entries[k];
      } else {
        SkippableHasNoWindow(b, id, entries[n], env);
      }
    }
  }

  lemma SkippableHasNoWindow(b: Db, id: nat, e: Entry, env: Env)
    requires Skippable(b, e) && Owns(b, id, e.name)
    ensures WindowOf(b, id, e, env)
  {}

  lemma SkippedStep(a: Db, b: Db, entries: seq<Entry>, env: Env)
    requires entries != [] && Skippable(b, entries[|entries| - 1])
    requires Outcome(a, b, entries[..|entries| - 1], env)
    ensures Outcome(a, b, entries, env)
  {
    SkippedNames(a, b, entries);
    SkippedCarries(a, b, entries, env);
    SkippedWindows(b, entries, env);
  }

  lemma UiNameIsSkippable(b: Db, file: seq<Entry>, e: Entry)
    requires Alone(b, file) && Seen(file, e.name) && UiName(b, e.name)
    ensures Skippable(b, e) && !ManagedName(b, e.name)
  {
    var u :| IsUi(b, u) && Owns(b, u, e.name);
    assert forall id :: id in b.defs && b.defs[id].managed && b.defs[id].name == e.name ==> Owns(b, id, e.name);
  }

  // An entry that is written.

  lemma WindowStays(a: Db, b: Db, id: nat, plan: Plan, env: Env)
    requires RowsStay(a, b) && InRange(plan) && HasWindow(a, id, plan, env.today, env.lookahead)
    ensures HasWindow(b, id, plan, env.today, env.lookahead)
  {
    forall d: Date | d in Window(plan, env.today, env.lookahead)
      ensures HasRow(b, id, d)
    {
      RowStays(a, b, id, d);
    }
  }

  lemma WindowOfStays(a: Db, b: Db, id: nat, e: Entry, env: Env)
    requires RowsStay(a, b) && WindowOf(a, id, e, env) && id in a.defs && id in b.defs
    requires b.defs[id].managed == a.defs[id].managed
    ensures WindowOf(b, id, e, env)
  {
    if FromEntry(e).Some? && e.connector == "" && b.defs[id].managed && InRange(FromEntry(e).value.plan) {
      WindowStays(a, b, id, FromEntry(e).value.plan, env);
    }
  }

  /** A name that was free has no valid entry so far. */
  lemma FreeMeansUnseen(b: Db, entries: seq<Entry>, name: string)
    requires AllThere(b, entries) && Free(b, name)
    ensures !Seen(entries, name)
  {}

  lemma InvalidHasNoWindow(b: Db, id: nat, e: Entry, env: Env)
    requires !IsValidNamed(e, e.name)
    ensures WindowOf(b, id, e, env)
  {}

  lemma OldWindow(b: Db, c: Db, before: seq<Entry>, env: Env, id: nat, name: string, k: nat, d: nat)
    requires AllThere(b, before) && HasWindows(b, before, env)
    requires IsRowOf(b, c, id, name) && OthersDiffer(b, c, id, name)
    requires k < |before| && Owns(c, d, before[k].name)
    ensures WindowOf(c, d, before[k], env)
  {
    var e := before[k];
    if d in b.defs {
      assert Owns(b, d, e.name);
      WindowOfStays(b, c, d, e, env);
    } else {
      FreeMeansUnseen(b, before, e.name);
      InvalidHasNoWindow(c, d, e, env);
    }
  }

  lemma WrittenWindows(b: Db, c: Db, entries: seq<Entry>, env: Env, id: nat)
    requires entries != [] && AllThere(b, entries[..|entries| - 1]) && HasWindows(b, entries[..|entries| - 1], env)
    requires var e := entries[|entries| - 1];
             IsRowOf(b, c, id, e.name) && OthersDiffer(b, c, id, e.name) && WindowOf(c, id, e, env)
    ensures HasWindows(c, entries, env)
  {
    var n := |entries| - 1;
    forall k, d | 0 <= k <= n && Owns(c, d, entries[k].name)
      ensures WindowOf(c, d, entries[k], env)
    {
      if k < n {
        assert entries[..n][k] == entries[k];
        OldWindow(b, c, entries[..n], env, id, entries[n].name, k, d);
      } else {
        assert d == id;
      }
    }
  }

  lemma WrittenAllThere(b: Db, c: Db, entries: seq<Entry>, id: nat)
    requires entries != [] && AllThere(b, entries[..|entries| - 1])
    requires Owns(c, id, entries[|entries| - 1].name) && OthersDiffer(b, c, id, entries[|entries| - 1].name)
    requires id in b.defs ==> b.defs[id].name == entries[|entries| - 1].name
    ensures AllThere(c, entries)
  {
    forall name | Seen(entries, name)
      ensures exists o :: Owns(c, o, name)
    {
      SeenPrefix(entries, name);
      if name == entries[|entries| - 1].name {
        assert Owns(c, id, name);
      } else {
        var o :| Owns(b, o, name);
        assert Owns(c, o, name);
      }
    }
  }

  lemma WrittenNames(a: Db, b: Db, c: Db, entries: seq<Entry>, id: nat)
    requires entries != [] && Kept(a, b) && NewInFile(a, b, entries[..|entries| - 1])
    requires var e := entries[|entries| - 1];
             FromEntry(e).Some? && IsRowOf(b, c, id, e.name) && OthersDiffer(b, c, id, e.name)
    ensures Kept(a, c) && NewInFile(a, c, entries)
  {
    var e := entries[|entries| - 1];
    SeenGrows(entries);
    assert IsValidNamed(e, e.name);
    assert id !in b.defs ==> Free(a, e.name);
  }

  /** The entries so far account for the row an entry is about to overwrite, or there is none of that name. */
  lemma FreshOrKnown(a: Db, b: Db, entries: seq<Entry>, env: Env, id: nat, name: string)
    requires Kept(a, b) && AllThere(b, entries) && Carries(a, b, entries) && CarriesAmount(a, b, entries, env)
    requires if id in b.defs then b.defs[id].managed && b.defs[id].name == name else Free(b, name)
    ensures var f := Folded(Prior(a, id), entries, name);
            if id in b.defs then f.Some? && SameButAmount(b.defs[id], f.value) && (NoAnswers(env) ==>
                                                                                     f == Some(b.defs[id]))
            else f == None
    ensures LastScheduled(entries, name).Some? && !Overtaken(entries, name) ==>
              id in b.defs && b.defs[id].amountCents == LastScheduled(entries, name).value.amountCents
  {
    if id !in b.defs {
      SeenHasLast(entries, name);
      FreeMeansUnseen(b, entries, name);
      FoldedIsLast(None, entries, name);
      LastIsLastScheduled(entries, name);
    }
  }

  lemma WrittenRow(a: Db, b: Db, c: Db, entries: seq<Entry>, env: Env, id: nat)
    requires entries != [] && Kept(a, b)
    requires var before := entries[..|entries| - 1];
             AllThere(b, before) && Carries(a, b, before) && CarriesAmount(a, b, before, env)
    requires var e := entries[|entries| - 1];
             && FromEntry(e).Some? && InRange(FromEntry(e).value.plan) && IsRowOf(b, c, id, e.name)
             && Writes(b, c, id, e, |entries| - 1, env)
    ensures var name := entries[|entries| - 1].name;
            var f := Folded(Prior(a, id), entries, name);
            && f.Some? && SameButAmount(c.defs[id], f.value)
            && (LastScheduled(entries, name).Some? && !Overtaken(entries, name) ==>
                  c.defs[id].amountCents == LastScheduled(entries, name).value.amountCents)
            && (NoAnswers(env) ==> f == Some(c.defs[id]))
  {
    var n := |entries| - 1;
    var e := entries[n];
    EntryMeetsCheck(e);
    FreshOrKnown(a, b, entries[..n], env, id, e.name);
    assert IsValidNamed(e, e.name);
  }

  lemma WrittenCarries(a: Db, b: Db, c: Db, entries: seq<Entry>, env: Env, id: nat)
    requires entries != []
    requires Carries(a, b, entries[..|entries| - 1]) && CarriesAmount(a, b, entries[..|entries| - 1], env)
    requires var name := entries[|entries| - 1].name;
             var f := Folded(Prior(a, id), entries, name);
             && OthersDiffer(b, c, id, name) && Owns(c, id, name)
             && f.Some? && SameButAmount(c.defs[id], f.value)
             && (LastScheduled(entries, name).Some? && !Overtaken(entries, name) ==>
                   c.defs[id].amountCents == LastScheduled(entries, name).value.amountCents)
             && (NoAnswers(env) ==> f == Some(c.defs[id]))
    ensures Carries(a, c, entries) && CarriesAmount(a, c, entries, env)
  {
    var n := |entries| - 1;
    forall d | d in c.defs && d != id
      ensures Folded(Prior(a, d), entries, c.defs[d].name) == Folded(Prior(a, d), entries[..n], c.defs[d].name)
      ensures LastScheduled(entries, c.defs[d].name) == LastScheduled(entries[..n], c.defs[d].name)
      ensures Overtaken(entries, c.defs[d].name) == Overtaken(entries[..n], c.defs[d].name)
    {}
  }

  lemma WrittenStep(a: Db, b: Db, c: Db, entries: seq<Entry>, env: Env, id: nat)
    requires entries != [] && Outcome(a, b, entries[..|entries| - 1], env)
    requires var e := entries[|entries| - 1];
             && FromEntry(e).Some? && InRange(FromEntry(e).value.plan) && IsRowOf(b, c, id, e.name)
             && Writes(b, c, id, e, |entries| - 1, env) && OthersDiffer(b, c, id, e.name)
    ensures Outcome(a, c, entries, env)
  {
    WrittenNames(a, b, c, entries, id);
    WrittenAllThere(b, c, entries, id);
    WrittenRow(a, b, c, entries, env, id);
    WrittenCarries(a, b, c, entries, env, id);
    WrittenWindows(b, c, entries, env, id);
    OnManagedKeepsUi(b, c, id);
    UiSameTransitive(a, b, c);
  }

  lemma {:induction false} EntriesOutcome(db: Db, entries: seq<Entry>, file: seq<Entry>, env: Env)
    requires Valid(db) && Alone(db, file) && Calm(env) && Fits(entries) && entries <= file
    ensures Outcome(db, EntriesDone(db, entries, env), entries, env)
    ensures Alone(EntriesDone(db, entries, env), file)
    decreases |entries|
  {
    if entries == [] {
      OutcomeAtStart(db, env);
    } else {
      var n := |entries| - 1;
      var e, mid := entries[n], EntriesDone(db, entries[..n], env);
      EntriesOutcome(db, entries[..n], file, env);
      if FromEntry(e).None? {
        SkippedStep(db, mid, entries, env);
      } else {
        assert IsValidNamed(file[n], e.name);
        if UiName(mid, e.name) {
          UiNameIsSkippable(mid, file, e);
          UiEntryIsSkipped(mid, e, n, env);
          SkippedStep(db, mid, entries, env);
        } else {
          var id := ManagedEntry(mid, file, e, n, env);
          RowOfIsAlone(mid, EntryDone(mid, e, n, env), file, id, e.name);
          WrittenStep(db, mid, EntryDone(mid, e, n, env), entries, env, id);
        }
      }
    }
  }

  // ----- the removal pass and the result -----

  /**
   Every file-managed row has the plan and link of the last valid entry of its
   name, and its amount if that is not a connector's.
   */
  ghost predicate FollowsFile(db: Db, entries: seq<Entry>) {
    forall id :: id in db.defs && db.defs[id].managed ==> RowFollows(db.defs[id], entries)
  }

  predicate RowFollows(def: Definition, entries: seq<Entry>) {
    var last := LastValid(entries, def.name);
    && last.Some?
    && def.plan == FromEntry(last.value).value.plan
    && def.vendorURL == FromEntry(last.value).value.vendorURL
    && (last.value.connector == "" ==> def.amountCents == last.value.amountCents)
  }

  lemma DoneFollowsFile(a: Db, b: Db, entries: seq<Entry>, env: Env, id: nat)
    requires Valid(a) && Outcome(a, b, entries, env) && id in b.defs && b.defs[id].managed
    requires Seen(entries, b.defs[id].name)
    ensures RowFollows(b.defs[id], entries)
  {
    SeenHasLast(entries, b.defs[id].name);
    FoldedIsLast(Prior(a, id), entries, b.defs[id].name);
    LastIsLastScheduled(entries, b.defs[id].name);
  }

  /** A name of the file is on the settings page or file-managed, not both. */
  lemma AloneIsNotShared(db: Db, entries: seq<Entry>, name: string)
    requires Alone(db, entries)
    ensures !Shared(db, entries, name)
  {}

  lemma DistinctStay(a: Db, b: Db, entries: seq<Entry>)
    requires DistinctNames(a) && Kept(a, b) && NewInFile(a, b, entries) && Alone(b, entries)
    ensures DistinctNames(b)
  {}

  /**
   The result of a reconciliation. If no store call fails and each file-managed
   bill that the file names is the only one of its name: the file-managed names
   are exactly the names of the valid entries that the settings page does not
   use; each such bill carries what the last valid entry of its name says; bills
   of the file that existed keep their id and every instance; bills of the
   settings page are untouched.
   */
  lemma ReconcileOutcome(db: Db, entries: seq<Entry>, env: Env)
    requires Valid(db) && Alone(db, entries) && Calm(env) && Fits(entries)
    ensures var end := Reconciled(db, entries, env);
            && Valid(end) && Alone(end, entries) && UiSame(db, end)
            && NamesAsStated(db, end, entries)
            && FollowsFile(end, entries)
            && Survive(db, end, entries)
            && (DistinctNames(db) ==> DistinctNames(end))
  {
    EntriesOutcome(db, entries, entries, env);
    ReconcileKeepsUi(db, entries, env);
    FileBillsSurvive(db, entries, env);
    var done, end := EntriesDone(db, entries, env), Reconciled(db, entries, env);
    assert forall id :: id in end.defs <==>
             id in done.defs && (done.defs[id].managed ==> Seen(entries, done.defs[id].name));
    assert forall id :: id in end.defs ==> end.defs[id] == done.defs[id];
    forall id | id in end.defs && end.defs[id].managed
      ensures RowFollows(end.defs[id], entries)
    {
      DoneFollowsFile(db, done, entries, env, id);
    }
    assert NamesAsStated(db, end, entries) by {
      forall name
        ensures !Shared(db, entries, name)
      {
        AloneIsNotShared(db, entries, name);
      }
      NamesAsStatedIff(db, entries, env);
    }
    if DistinctNames(db) {
      DistinctStay(db, done, entries);
    }
  }

  // ----- running it again -----

  /** The amounts a second run would write are the ones stored. */
  ghost predicate AmountsSettled(db: Db, entries: seq<Entry>) {
    forall id :: id in db.defs && db.defs[id].managed ==> AmountSettled(db.defs[id], entries)
  }

  predicate AmountSettled(def: Definition, entries: seq<Entry>) {
    var s := LastScheduled(entries, def.name);
    s.Some? ==> def.amountCents == s.value.amountCents
  }

  /** In step with the file, as a first run leaves it and a second run on the same day finds it. */
  ghost predicate InStep(db: Db, entries: seq<Entry>, env: Env) {
    && Valid(db) && Alone(db, entries) && FollowsFile(db, entries)
    && AllThere(db, entries) && HasWindows(db, entries, env)
  }

  lemma FirstRun(db: Db, entries: seq<Entry>, env: Env)
    requires Valid(db) && Alone(db, entries) && Calm(env) && Fits(entries)
    ensures InStep(Reconciled(db, entries, env), entries, env)
  {
    ReconcileOutcome(db, entries, env);
    EntriesOutcome(db, entries, entries, env);
    RemovalKeepsAllThere(EntriesDone(db, entries, env), entries, env);
    RemovalKeepsWindows(EntriesDone(db, entries, env), entries, env);
  }

  lemma RemovalKeepsAllThere(done: Db, entries: seq<Entry>, env: Env)
    requires AllThere(done, entries)
    ensures AllThere(Removed(done, Doomed(done, entries, env)), entries)
  {
    forall name | Seen(entries, name)
      ensures exists id :: Owns(Removed(done, Doomed(done, entries, env)), id, name)
    {
      var id :| Owns(done, id, name);
      assert Owns(Removed(done, Doomed(done, entries, env)), id, name);
    }
  }

  lemma RemovalKeepsWindows(done: Db, entries: seq<Entry>, env: Env)
    requires HasWindows(done, entries, env)
    ensures HasWindows(Removed(done, Doomed(done, entries, env)), entries, env)
  {
    var end := Removed(done, Doomed(done, entries, env));
    forall k, id | 0 <= k < |entries| && Owns(end, id, entries[k].name)
      ensures WindowOf(end, id, entries[k], env)
    {
      assert Owns(done, id, entries[k].name) && WindowOf(done, id, entries[k], env);
      WindowOfSurvives(done, end, id, entries[k], env);
    }
  }

  lemma WindowOfSurvives(a: Db, b: Db, id: nat, e: Entry, env: Env)
    requires WindowOf(a, id, e, env) && id in a.defs && id in b.defs && b.defs[id] == a.defs[id]
    requires forall i :: i in a.instances && a.instances[i].definition == id ==>
               i in b.instances && b.instances[i] == a.instances[i]
    ensures WindowOf(b, id, e, env)
  {
    if FromEntry(e).Some? && e.connector == "" && b.defs[id].managed && InRange(FromEntry(e).value.plan) {
      forall d: Date | d in Window(FromEntry(e).value.plan, env.today, env.lookahead)
        ensures HasRow(b, id, d)
      {
        var i :| i in a.instances && SameRow(a.instances[i], Instance(id, d, false));
        assert i in b.instances && SameRow(b.instances[i], Instance(id, d, false));
      }
    }
  }

  /** In a second run an entry that is written finds its row and its window. */
  lemma AgainEntry(one: Db, mid: Db, entries: seq<Entry>, k: nat, env: Env)
    requires k < |entries| && Calm(env) && NoAnswers(env) && Fits(entries)
    requires InStep(one, entries, env) && Outcome(one, mid, entries[..k], env) && Alone(mid, entries)
    requires mid.instances == one.instances
    ensures EntryDone(mid, entries[k], k, env).instances == one.instances
  {
    var e := entries[k];
    if FromEntry(e).Some? {
      assert IsValidNamed(e, e.name) && Seen(entries, e.name);
      if UiName(mid, e.name) {
        UiNameIsSkippable(mid, entries, e);
        UiEntryIsSkipped(mid, e, k, env);
      } else {
        var id := ManagedEntry(mid, entries, e, k, env);
        var o :| Owns(one, o, e.name);
        assert Owns(mid, o, e.name);
        assert o == id;
        assert WindowOf(one, id, e, env);
        WindowOfSurvivesSame(one, mid, id, e, env);
      }
    }
  }

  lemma WindowOfSurvivesSame(a: Db, b: Db, id: nat, e: Entry, env: Env)
    requires WindowOf(a, id, e, env) && id in a.defs && id in b.defs && b.defs[id].managed == a.defs[id].managed
    requires a.instances == b.instances
    ensures WindowOf(b, id, e, env)
  {
    WindowOfStays(a, b, id, e, env);
  }

  lemma {:induction false} AgainInstances(one: Db, entries: seq<Entry>, k: nat, env: Env)
    requires k <= |entries| && Calm(env) && NoAnswers(env) && Fits(entries) && InStep(one, entries, env)
    ensures EntriesDone(one, entries[..k], env).instances == one.instances
    decreases k
  {
    if k == 0 {
    } else {
      AgainInstances(one, entries, k - 1, env);
      assert entries[..k][..k - 1] == entries[..k - 1];
      EntriesOutcome(one, entries[..k - 1], entries, env);
      AgainEntry(one, EntriesDone(one, entries[..k - 1], env), entries, k - 1, env);
    }
  }

  lemma AgainKeys(one: Db, done: Db, entries: seq<Entry>, env: Env)
    requires InStep(one, entries, env) && Outcome(one, done, entries, env)
    ensures forall id :: id in done.defs <==> id in one.defs
    ensures forall id :: id in one.defs && !one.defs[id].managed ==> done.defs[id] == one.defs[id]
    ensures forall id :: id in done.defs && done.defs[id].managed ==> Seen(entries, done.defs[id].name)
  {
    forall id | id in done.defs && id !in one.defs
      ensures false
    {
      FreeMeansUnseen(one, entries, done.defs[id].name);
    }
    forall id | id in done.defs && done.defs[id].managed
      ensures Seen(entries, done.defs[id].name)
    {
      SeenHasLast(entries, done.defs[id].name);
      assert RowFollows(one.defs[id], entries);
    }
    forall id | id in one.defs && !one.defs[id].managed
      ensures done.defs[id] == one.defs[id]
    {
      assert IsUi(one, id);
    }
  }

  /** One row under a second run: only its amount can move, to the last scheduled entry's. */
  lemma AgainRow(one: Db, done: Db, entries: seq<Entry>, env: Env, id: nat)
    requires InStep(one, entries, env) && Outcome(one, done, entries, env) && NoAnswers(env)
    requires id in one.defs && one.defs[id].managed && id in done.defs
    ensures done.defs[id] == one.defs[id] <==> AmountSettled(one.defs[id], entries)
  {
    FoldedIsLast(Some(one.defs[id]), entries, one.defs[id].name);
    assert RowFollows(one.defs[id], entries);
  }

  /**
   Running it again with the same file on the same day, while no vendor
   answers: no instance changes, and no definition changes if and only if every
   file-managed name that has an entry without connector is stored with the
   amount of the last such entry. That holds unless the last entry of the name
   is a connector and a vendor has set the amount since.
   */
  lemma ReconcileAgain(db: Db, entries: seq<Entry>, env: Env, env': Env)
    requires Valid(db) && Alone(db, entries) && Calm(env) && Fits(entries)
    requires Calm(env') && NoAnswers(env') && env'.today == env.today && env'.lookahead == env.lookahead
    ensures var one := Reconciled(db, entries, env);
            var two := Reconciled(one, entries, env');
            && two.instances == one.instances
            && (two.defs == one.defs <==> AmountsSettled(one, entries))
  {
    var one := Reconciled(db, entries, env);
    FirstRun(db, entries, env);
    assert InStep(one, entries, env') by { SameDay(one, entries, env, env'); }
    SecondRun(one, entries, env');
  }

  lemma SameDay(one: Db, entries: seq<Entry>, env: Env, env': Env)
    requires InStep(one, entries, env) && env'.today == env.today && env'.lookahead == env.lookahead
    ensures InStep(one, entries, env')
  {
    forall k, id | 0 <= k < |entries| && Owns(one, id, entries[k].name)
      ensures WindowOf(one, id, entries[k], env')
    {
      assert WindowOf(one, id, entries[k], env);
    }
  }

  lemma SecondRunTables(one: Db, entries: seq<Entry>, env: Env)
    requires InStep(one, entries, env) && Calm(env) && NoAnswers(env) && Fits(entries)
    ensures var done, two := EntriesDone(one, entries, env), Reconciled(one, entries, env);
            two.instances == one.instances && two.defs == done.defs
  {
    var done := EntriesDone(one, entries, env);
    EntriesOutcome(one, entries, entries, env);
    assert entries[..|entries|] == entries;
    AgainInstances(one, entries, |entries|, env);
    AgainKeys(one, done, entries, env);
    NothingDoomed(done, entries, env);
    RemovedNothing(done);
  }

  lemma NothingDoomed(db: Db, entries: seq<Entry>, env: Env)
    requires forall id :: id in db.defs && db.defs[id].managed ==> Seen(entries, db.defs[id].name)
    ensures Doomed(db, entries, env) == {}
  {}

  lemma SecondRun(one: Db, entries: seq<Entry>, env: Env)
    requires InStep(one, entries, env) && Calm(env) && NoAnswers(env) && Fits(entries)
    ensures var two := Reconciled(one, entries, env);
            && two.instances == one.instances
            && (two.defs == one.defs <==> AmountsSettled(one, entries))
  {
    SecondRunTables(one, entries, env);
    var done := EntriesDone(one, entries, env);
    EntriesOutcome(one, entries, entries, env);
    AgainKeys(one, done, entries, env);
    forall id | id in one.defs && one.defs[id].managed
      ensures done.defs[id] == one.defs[id] <==> AmountSettled(one.defs[id], entries)
    {
      AgainRow(one, done, entries, env, id);
    }
    SameDefsIff(one, done, entries);
  }

  lemma SameDefsIff(one: Db, done: Db, entries: seq<Entry>)
    requires forall id :: id in done.defs <==> id in one.defs
    requires forall id :: id in one.defs && !one.defs[id].managed ==> done.defs[id] == one.defs[id]
    requires forall id :: id in one.defs && one.defs[id].managed ==>
               (done.defs[id] == one.defs[id] <==> AmountSettled(one.defs[id], entries))
    ensures done.defs == one.defs <==> AmountsSettled(one, entries)
  {
    if !AmountsSettled(one, entries) {
      var id :| id in one.defs && one.defs[id].managed && !AmountSettled(one.defs[id], entries);
      assert done.defs[id] != one.defs[id];
    }
  }

  /** The amounts are settled when no vendor answered in the first run either. */
  lemma QuietRunSettles(db: Db, entries: seq<Entry>, env: Env)
    requires Valid(db) && Alone(db, entries) && Calm(env) && Fits(entries) && NoAnswers(env)
    ensures AmountsSettled(Reconciled(db, entries, env), entries)
  {
    EntriesOutcome(db, entries, entries, env);
    var done, end := EntriesDone(db, entries, env), Reconciled(db, entries, env);
    forall id | id in end.defs && end.defs[id].managed
      ensures AmountSettled(end.defs[id], entries)
    {
      FoldedIsLast(Prior(db, id), entries, done.defs[id].name);
    }
  }

  /** The name has an entry without connector, and after the last such entry one that can log in. */
  predicate Mixed(entries: seq<Entry>, name: string) {
    LastScheduled(entries, name).Some? && Overtaken(entries, name)
  }

  ghost predicate Unmixed(db: Db, entries: seq<Entry>) {
    forall name :: !UiName(db, name) ==> !Mixed(entries, name)
  }

  /** They are settled too when no name outside the settings page is mixed, whatever vendors answer. */
  lemma UnmixedSettles(db: Db, entries: seq<Entry>, env: Env)
    requires Valid(db) && Alone(db, entries) && Calm(env) && Fits(entries)
    requires Unmixed(db, entries)
    ensures AmountsSettled(Reconciled(db, entries, env), entries)
  {
    ReconcileOutcome(db, entries, env);
    EntriesOutcome(db, entries, entries, env);
    var done, end := EntriesDone(db, entries, env), Reconciled(db, entries, env);
    forall id | id in end.defs && end.defs[id].managed
      ensures AmountSettled(end.defs[id], entries)
    {
      assert Owns(end, id, end.defs[id].name) && ManagedName(end, end.defs[id].name);
      assert !Mixed(entries, end.defs[id].name);
      assert id in done.defs && done.defs[id] == end.defs[id];
    }
  }

  lemma {:induction false} LastIsLastScheduled(entries: seq<Entry>, name: string)
    ensures LastScheduled(entries, name).Some? ==> LastValid(entries, name).Some?
    ensures LastValid(entries, name).Some? && LastValid(entries, name).value.connector == "" ==>
              LastScheduled(entries, name) == LastValid(entries, name) && !Overtaken(entries, name)
    decreases |entries|
  {
    if entries == [] {
    } else {
      LastIsLastScheduled(entries[..|entries| - 1], name);
    }
  }
}
