/**
 Which names a reconciliation leaves in the file's care, and which rows it
 keeps; names need not be distinct.
 */
module ReconcileNames {
  import opened Schedule
  import opened Ledger
  import opened World
  import opened Entries
  import opened Handlers
  import opened Reconcile
  import opened Footprint
  import opened ReconcileResult

  /** No store call fails. */
  ghost predicate Calm(env: Env) {
    && IsChooser(env.pick)
    && (forall i: nat, s: Slot :: env.ok(i, s))
    && (forall i: nat :: env.rowsFail(i).None?)
  }

  /** Amounts fit their column. */
  predicate Fits(entries: seq<Entry>) {
    forall k :: 0 <= k < |entries| && FromEntry(entries[k]).Some? ==> FitsInteger(entries[k].amountCents)
  }

  predicate Owns(db: Db, id: nat, name: string) {
    id in db.defs && db.defs[id].name == name
  }

  ghost predicate UiName(db: Db, name: string) {
    exists id :: IsUi(db, id) && Owns(db, id, name)
  }

  ghost predicate Free(db: Db, name: string) {
    forall id :: id in db.defs ==> db.defs[id].name != name
  }

  ghost predicate ManagedName(db: Db, name: string) {
    exists id :: Owns(db, id, name) && db.defs[id].managed
  }

  lemma SeenPrefix(entries: seq<Entry>, name: string)
    requires entries != []
    ensures var n := |entries| - 1;
            Seen(entries, name) <==> Seen(entries[..n], name) || IsValidNamed(entries[n], name)
  {
    var n := |entries| - 1;
    if Seen(entries[..n], name) {
      var k :| 0 <= k < n && IsValidNamed(entries[..n][k], name);
      assert IsValidNamed(entries[k], name);
    }
    if Seen(entries, name) && !IsValidNamed(entries[n], name) {
      var k :| 0 <= k < |entries| && IsValidNamed(entries[k], name);
      assert IsValidNamed(entries[..n][k], name);
    }
  }

  lemma SeenGrows(entries: seq<Entry>)
    requires entries != []
    ensures var n := |entries| - 1;
            forall name :: Seen(entries, name) <==> Seen(entries[..n], name) || IsValidNamed(entries[n], name)
  {
    forall name
      ensures Seen(entries, name) <==>
                Seen(entries[..|entries| - 1], name) || IsValidNamed(entries[|entries| - 1], name)
    {
      SeenPrefix(entries, name);
    }
  }

  // ----- one entry -----

  lemma NewEntryIs(db: Db, e: Entry, i: nat, env: Env)
    requires Calm(env) && FromEntry(e).Some? && FitsInteger(e.amountCents) && Named(db, e.name) == {}
    ensures var def := FromEntry(e).value.(managed := true);
            && InRange(def.plan) && Storable(def)
            && EntryDone(db, e, i, env) == FollowUp(Created(db, def), db.nextDef, def.plan, e, i, env)
  {
    EntryMeetsCheck(e);
  }

  /** Whatever fails, an entry takes no name away, and adds none but its own, where that was free. */
  lemma EntryKeepsNames(db: Db, e: Entry, i: nat, env: Env, name: string)
    requires Valid(db) && IsChooser(env.pick)
    ensures ManagedName(db, name) ==> ManagedName(EntryDone(db, e, i, env), name)
    ensures ManagedName(EntryDone(db, e, i, env), name) && !ManagedName(db, name) ==>
              IsValidNamed(e, name) && Free(db, name)
  {
    var b := EntryDone(db, e, i, env);
    if FromEntry(e).Some? {
      EntryMeetsCheck(e);
      if Named(db, e.name) == {} {
        EntryInserts(db, e, i, env);
        assert forall d :: d in db.defs && db.defs[d].name == e.name ==> d in Named(db, e.name);
        InsertedNames(db, b, e.name, name);
      } else {
        var id := EntryFinds(db, e, i, env);
        if id in db.defs {
          FoundNames(db, b, id, name);
        }
      }
    }
  }

  lemma InsertedNames(a: Db, b: Db, added: string, name: string)
    requires Valid(a) && OnManaged(a, b, a.nextDef) && (a.nextDef in b.defs ==> b.defs[a.nextDef].name == added)
    ensures ManagedName(a, name) ==> ManagedName(b, name)
    ensures ManagedName(b, name) && !ManagedName(a, name) ==> name == added
  {
    if ManagedName(a, name) {
      var id :| Owns(a, id, name) && a.defs[id].managed;
      assert Owns(b, id, name);
    }
    if ManagedName(b, name) && name != added {
      var id :| Owns(b, id, name) && b.defs[id].managed;
      assert Owns(a, id, name);
    }
  }

  lemma FoundNames(a: Db, b: Db, id: nat, name: string)
    requires OnManaged(a, b, id) && id in a.defs
    ensures ManagedName(a, name) <==> ManagedName(b, name)
  {
    if ManagedName(a, name) {
      var d :| Owns(a, d, name) && a.defs[d].managed;
      assert Owns(b, d, name);
    }
    if ManagedName(b, name) {
      var d :| Owns(b, d, name) && b.defs[d].managed;
      assert Owns(a, d, name);
    }
  }

  /** A valid entry takes its name unless the settings page has it. */
  lemma EntryTakesName(db: Db, e: Entry, i: nat, env: Env)
    requires Valid(db) && Calm(env) && FromEntry(e).Some? && FitsInteger(e.amountCents) && !UiName(db, e.name)
    ensures ManagedName(EntryDone(db, e, i, env), e.name)
  {
    var b := EntryDone(db, e, i, env);
    if Named(db, e.name) == {} {
      NewEntryIs(db, e, i, env);
      EntryMeetsCheck(e);
      CreatedThen(db, FromEntry(e).value.(managed := true), e, i, env);
      assert Owns(b, db.nextDef, e.name);
    } else {
      var id :| id in Named(db, e.name);
      assert Owns(db, id, e.name) && !IsUi(db, id);
      EntryKeepsNames(db, e, i, env, e.name);
    }
  }

  // ----- the whole file -----

  lemma UiNameStays(a: Db, b: Db, name: string)
    requires UiSame(a, b)
    ensures UiName(a, name) <==> UiName(b, name)
  {
    if UiName(a, name) {
      var id :| IsUi(a, id) && Owns(a, id, name);
      assert IsUi(b, id) && Owns(b, id, name);
    }
    if UiName(b, name) {
      var id :| IsUi(b, id) && Owns(b, id, name);
      assert IsUi(a, id) && Owns(a, id, name);
    }
  }

  lemma FreeIff(db: Db, name: string)
    ensures Free(db, name) <==> !UiName(db, name) && !ManagedName(db, name)
  {
    if !Free(db, name) {
      var id :| id in db.defs && db.defs[id].name == name;
      assert Owns(db, id, name) && (db.defs[id].managed || IsUi(db, id));
    }
  }

  lemma {:induction false} EntriesKeepNames(db: Db, entries: seq<Entry>, env: Env, name: string)
    requires Valid(db) && IsChooser(env.pick)
    ensures ManagedName(db, name) ==> ManagedName(EntriesDone(db, entries, env), name)
    ensures ManagedName(EntriesDone(db, entries, env), name) && !ManagedName(db, name) ==>
              Seen(entries, name) && Free(db, name)
    decreases |entries|
  {
    if entries == [] {
    } else {
      var n := |entries| - 1;
      var mid := EntriesDone(db, entries[..n], env);
      EntriesKeepNames(db, entries[..n], env, name);
      EntriesKeepUi(db, entries[..n], env);
      EntryKeepsNames(mid, entries[n], n, env, name);
      SeenPrefix(entries, name);
      UiNameStays(db, mid, name);
      FreeIff(db, name);
      FreeIff(mid, name);
    }
  }

  lemma {:induction false} EntriesTakeNames(db: Db, entries: seq<Entry>, env: Env, name: string)
    requires Valid(db) && Calm(env) && Fits(entries) && Seen(entries, name) && !UiName(db, name)
    ensures ManagedName(EntriesDone(db, entries, env), name)
    decreases |entries|
  {
    var n := |entries| - 1;
    var mid := EntriesDone(db, entries[..n], env);
    EntriesKeepUi(db, entries[..n], env);
    UiNameStays(db, mid, name);
    SeenPrefix(entries, name);
    if IsValidNamed(entries[n], name) {
      EntryTakesName(mid, entries[n], n, env);
    } else {
      EntriesTakeNames(db, entries[..n], env, name);
      EntryKeepsNames(mid, entries[n], n, env, name);
    }
  }

  /**
   The file-managed names after a reconciliation in which no store call fails,
   from any state: the names of the valid entries, but for those that only the
   settings page uses.
   */
  lemma ManagedNamesAre(db: Db, entries: seq<Entry>, env: Env, name: string)
    requires Valid(db) && Calm(env) && Fits(entries)
    ensures ManagedName(Reconciled(db, entries, env), name) <==>
              Seen(entries, name) && (ManagedName(db, name) || !UiName(db, name))
  {
    var done, end := EntriesDone(db, entries, env), Reconciled(db, entries, env);
    EntriesKeepNames(db, entries, env, name);
    if Seen(entries, name) && !UiName(db, name) {
      EntriesTakeNames(db, entries, env, name);
    }
    if ManagedName(end, name) {
      var id :| Owns(end, id, name) && end.defs[id].managed;
      assert Owns(done, id, name) && id !in Doomed(done, entries, env);
      FreeIff(db, name);
    } else if ManagedName(done, name) {
      var id :| Owns(done, id, name) && done.defs[id].managed;
      assert !Owns(end, id, name);
    }
  }

  /** The valid entries' names that the settings page does not use. */
  ghost predicate NamesAsStated(db: Db, end: Db, entries: seq<Entry>) {
    forall name :: ManagedName(end, name) <==> Seen(entries, name) && !UiName(db, name)
  }

  /** A name of the file on bills of both sides. */
  ghost predicate Shared(db: Db, entries: seq<Entry>, name: string) {
    Seen(entries, name) && UiName(db, name) && ManagedName(db, name)
  }

  /**
   So the file-managed names are exactly the valid entries' names that the
   settings page does not use if and only if no name of the file is shared.
   Nothing prevents sharing: the settings page does not check names.
   */
  lemma NamesAsStatedIff(db: Db, entries: seq<Entry>, env: Env)
    requires Valid(db) && Calm(env) && Fits(entries)
    ensures NamesAsStated(db, Reconciled(db, entries, env), entries) <==> forall name :: !Shared(db, entries, name)
  {
    var end := Reconciled(db, entries, env);
    forall name
      ensures (ManagedName(end, name) <==> Seen(entries, name) && !UiName(db, name)) <==> !Shared(db, entries, name)
    {
      ManagedNamesAre(db, entries, env, name);
    }
    if name :| Shared(db, entries, name) {
      assert !(ManagedName(end, name) <==> Seen(entries, name) && !UiName(db, name));
    }
  }

  /** The settings page shares a name by adding a bill under it. */
  lemma AddingSharesName(db: Db, entries: seq<Entry>, form: Form, clock: Clock)
    requires Valid(db) && FromForm(form).Some? && Storable(FromForm(form).value)
    requires var name := FromForm(form).value.name; Seen(entries, name) && ManagedName(db, name)
    ensures Shared(BillAdded(db, form, clock), entries, FromForm(form).value.name)
  {
    FormMeetsCheck(form);
    var def := FromForm(form).value;
    var b := BillAdded(db, form, clock);
    CreateKeepsValid(db, def);
    GeneratedFollows(Created(db, def), db.nextDef,
                     Written(Window(def.plan, clock.today, clock.lookahead), clock.rowsFail));
    assert IsUi(b, db.nextDef) && Owns(b, db.nextDef, def.name);
    var id :| Owns(db, id, def.name) && db.defs[id].managed;
    assert Owns(b, id, def.name);
  }

  /** So a shared name is reached: from empty tables, by a restart with one entry and a form of that name. */
  lemma SharedIsReached(e: Entry, env: Env, form: Form, clock: Clock)
    requires FromEntry(e).Some? && FitsInteger(e.amountCents) && Calm(env)
    requires FromForm(form).Some? && Storable(FromForm(form).value) && FromForm(form).value.name == e.name
    ensures Shared(BillAdded(Reconciled(EMPTY, [e], env), form, clock), [e], e.name)
  {
    assert IsValidNamed([e][0], e.name);
    ManagedNamesAre(EMPTY, [e], env, e.name);
    ReconcileKeepsUi(EMPTY, [e], env);
    AddingSharesName(Reconciled(EMPTY, [e], env), [e], form, clock);
  }

  // ----- rows that stay -----

  /** Rows of the file's definitions that were there before, with their ids and all their instances. */
  ghost predicate Survive(a: Db, b: Db, entries: seq<Entry>) {
    && (forall id :: id in a.defs && a.defs[id].managed && Seen(entries, a.defs[id].name) ==>
          Owns(b, id, a.defs[id].name) && b.defs[id].managed)
    && (forall i :: i in a.instances && a.instances[i].definition in b.defs ==>
          i in b.instances && b.instances[i] == a.instances[i])
  }

  lemma {:induction false} ManagedRowStays(db: Db, entries: seq<Entry>, env: Env, id: nat)
    requires Valid(db) && IsChooser(env.pick) && id in db.defs && db.defs[id].managed
    ensures var done := EntriesDone(db, entries, env);
            Valid(done) && Owns(done, id, db.defs[id].name) && done.defs[id].managed
    decreases |entries|
  {
    if entries == [] {
    } else {
      var n := |entries| - 1;
      ManagedRowStays(db, entries[..n], env, id);
      var touched := EntryOnManaged(EntriesDone(db, entries[..n], env), entries[n], n, env);
    }
  }

  lemma {:induction false} EntriesKeepRows(db: Db, entries: seq<Entry>, env: Env)
    requires Valid(db) && IsChooser(env.pick)
    ensures Valid(EntriesDone(db, entries, env)) && RowsStay(db, EntriesDone(db, entries, env))
    decreases |entries|
  {
    if entries == [] {
    } else {
      var n := |entries| - 1;
      EntriesKeepRows(db, entries[..n], env);
      var touched := EntryOnManaged(EntriesDone(db, entries[..n], env), entries[n], n, env);
    }
  }

  /**
   From any state and whatever fails, bills of the file that existed keep their
   id, and bills that stay keep every instance.
   */
  lemma FileBillsSurvive(db: Db, entries: seq<Entry>, env: Env)
    requires Valid(db) && IsChooser(env.pick)
    ensures Survive(db, Reconciled(db, entries, env), entries)
  {
    var done, end := EntriesDone(db, entries, env), Reconciled(db, entries, env);
    forall id | id in db.defs && db.defs[id].managed && Seen(entries, db.defs[id].name)
      ensures Owns(end, id, db.defs[id].name) && end.defs[id].managed
    {
      ManagedRowStays(db, entries, env, id);
      assert id !in Doomed(done, entries, env);
    }
    EntriesKeepRows(db, entries, env);
  }

  /**
   From any state: a file-managed bill that the file does not name is gone
   exactly if the list of the removal pass and its own deletion go through.
   */
  lemma UnseenIsRemovedIff(db: Db, entries: seq<Entry>, env: Env, id: nat)
    requires Valid(db) && IsChooser(env.pick) && id in db.defs && db.defs[id].managed
    requires !Seen(entries, db.defs[id].name)
    ensures id in Reconciled(db, entries, env).defs <==>
              !env.ok(|entries|, ListAll) || !env.ok(|entries|, DeleteRow(id))
  {
    ManagedRowStays(db, entries, env, id);
  }
}
