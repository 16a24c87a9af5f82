/**
 The last known good amount in the running service: what ticks, payments,
 settings actions and the steps of the refresher itself interleave as they
 please.
 */
module LastReport {
  import opened Ledger
  import opened World
  import opened LastKnown

  /** The refresher `w` has an answer about the bill and has not written it yet. */
  predicate IsPricing(s: World, w: nat, id: nat) {
    w in s.workers && s.workers[w].Pricing? && s.workers[w].report.definition == id
  }

  /** The amount of the bill, or the one about to be written, is that of the last report. */
  ghost predicate IsCurrent(s: World, w: nat, id: nat, initial: int) {
    && id in s.db.defs && id < s.db.nextDef
    && (forall v :: v != w ==> !IsPricing(s, v, id))
    && (if IsPricing(s, w, id)
        then FitsInteger(s.workers[w].report.amountCents)
             && s.workers[w].report.amountCents == LastAmount(s.db.reports, id, initial)
        else s.db.defs[id].amountCents == LastAmount(s.db.reports, id, initial))
  }

  /** A step that starts something new in the place of worker `w`. */
  predicate Replaces(step: Step, w: nat) {
    step.Crash? || ((step.Add? || step.Edit? || step.Reload? || step.List? || step.ListConns?) && step.w == w)
  }

  /**
   One refresher; its amounts fit and are written; it is not cut off between an
   answer and its write. The bill is neither deleted nor edited, as the settings
   page refuses to for one of the file.
   */
  predicate MayTake(s: World, step: Step, w: nat, id: nat) {
    && step != Remove(id) && !((step.Edit? || step.Reload?) && step.id == id)
    && (step.Fetch? ==> step.w == w && (step.answer.Snapshot? ==> FitsInteger(step.answer.amountCents)))
    && (step.Price? ==> step.ok)
    && !(IsPricing(s, w, id) && Replaces(step, w))
  }

  lemma FetchKeepsCurrent(s: World, step: Step, w: nat, id: nat, initial: int, lookahead: int)
    requires IsCurrent(s, w, id, initial) && MayTake(s, step, w, id) && step.Fetch?
    ensures IsCurrent(After(s, step, lookahead), w, id, initial)
  {
    var t := After(s, step, lookahead);
    if t.db.reports != s.db.reports {
      var r := t.db.reports[|s.db.reports|];
      assert t.db.reports == s.db.reports + [r];
      if r.definition == id {
        LastIsLast(s.db.reports, r, initial);
      } else {
        OthersDoNotCount(s.db.reports, t.db.reports, id, initial);
      }
    }
    forall v | v != w
      ensures !IsPricing(t, v, id)
    {
      assert !IsPricing(s, v, id);
    }
  }

  lemma PriceKeepsCurrent(s: World, step: Step, w: nat, id: nat, initial: int, lookahead: int)
    requires IsCurrent(s, w, id, initial) && MayTake(s, step, w, id) && step.Price?
    ensures IsCurrent(After(s, step, lookahead), w, id, initial)
  {
    if step.w in s.workers && s.workers[step.w].Pricing? {
      assert s.workers[step.w].report.definition == id ==> IsPricing(s, step.w, id);
    }
    forall v | v != w
      ensures !IsPricing(After(s, step, lookahead), v, id)
    {
      assert !IsPricing(s, v, id);
    }
  }

  /** The bill is there at the same amount, and nothing was reported. */
  ghost predicate AmountLeft(a: Db, b: Db, id: nat) {
    && id in a.defs && id in b.defs && id < b.nextDef
    && b.defs[id].amountCents == a.defs[id].amountCents && b.reports == a.reports
  }

  lemma HandlerLeavesAmount(s: World, step: Step, w: nat, id: nat, lookahead: int)
    requires id in s.db.defs && id < s.db.nextDef && MayTake(s, step, w, id)
    requires step.Add? || step.Edit? || step.Reload? || step.Remove? || step.Pay? || step.Attach?
    ensures AmountLeft(s.db, After(s, step, lookahead).db, id)
  {}

  lemma WorkerLeavesAmount(s: World, step: Step, id: nat, lookahead: int)
    requires id in s.db.defs && id < s.db.nextDef && (step.EnsureNext? || step.Place? || step.Stamp?)
    ensures AmountLeft(s.db, After(s, step, lookahead).db, id)
  {}

  /** Every other step leaves the bill's amount and the reports. */
  lemma OtherLeavesAmount(s: World, step: Step, w: nat, id: nat, lookahead: int)
    requires id in s.db.defs && id < s.db.nextDef && MayTake(s, step, w, id) && !step.Fetch? && !step.Price?
    ensures AmountLeft(s.db, After(s, step, lookahead).db, id)
  {
    if step.EnsureNext? || step.Place? || step.Stamp? {
      WorkerLeavesAmount(s, step, id, lookahead);
    } else if step.Add? || step.Edit? || step.Reload? || step.Remove? || step.Pay? || step.Attach? {
      HandlerLeavesAmount(s, step, w, id, lookahead);
    } else {
      assert After(s, step, lookahead).db == s.db;
    }
  }

  /** And no worker comes to write an amount. */
  lemma OtherLeavesPricing(s: World, step: Step, w: nat, id: nat, lookahead: int, v: nat)
    requires MayTake(s, step, w, id) && !step.Fetch? && !step.Price?
    ensures IsPricing(After(s, step, lookahead), v, id) ==>
              IsPricing(s, v, id) && After(s, step, lookahead).workers[v] == s.workers[v]
    ensures v == w && IsPricing(s, v, id) ==> IsPricing(After(s, step, lookahead), v, id)
  {}

  lemma StepKeepsCurrent(s: World, step: Step, w: nat, id: nat, initial: int, lookahead: int)
    requires IsCurrent(s, w, id, initial) && MayTake(s, step, w, id)
    ensures IsCurrent(After(s, step, lookahead), w, id, initial)
  {
    if step.Fetch? {
      FetchKeepsCurrent(s, step, w, id, initial, lookahead);
    } else if step.Price? {
      PriceKeepsCurrent(s, step, w, id, initial, lookahead);
    } else {
      OtherLeavesAmount(s, step, w, id, lookahead);
      forall v
        ensures IsPricing(After(s, step, lookahead), v, id) ==>
                  IsPricing(s, v, id) && After(s, step, lookahead).workers[v] == s.workers[v]
        ensures v == w && IsPricing(s, v, id) ==> IsPricing(After(s, step, lookahead), v, id)
      {
        OtherLeavesPricing(s, step, w, id, lookahead, v);
      }
    }
  }

  /** A bill just created is current, with the amount it was created with. */
  lemma CreationIsCurrent(s: World, v: nat, def: Definition, w: nat, lookahead: int)
    requires Valid(s.db) && Storable(def) && forall u :: !IsPricing(s, u, s.db.nextDef)
    ensures IsCurrent(After(s, Step.Add(v, def), lookahead), w, s.db.nextDef, def.amountCents)
  {
    var t, id := After(s, Step.Add(v, def), lookahead), s.db.nextDef;
    OthersDoNotCount([], s.db.reports, id, def.amountCents);
    forall u
      ensures !IsPricing(t, u, id)
    {
      assert !IsPricing(s, u, id);
    }
  }

  ghost predicate TakesItsCourse(s: World, steps: seq<Step>, w: nat, id: nat, lookahead: int) {
    forall k :: 0 <= k < |steps| ==> MayTake(Reach(s, steps[..k], lookahead), steps[k], w, id)
  }

  /**
   In every interleaving with one refresher, at every moment at which it is not
   about to write an answer about the bill, the bill's amount is that of the
   last report, or the one it had at first if there was none.
   */
  lemma {:induction false} AmountIsLastReported(s: World, steps: seq<Step>, w: nat, id: nat, initial: int,
                                                lookahead: int)
    requires IsCurrent(s, w, id, initial) && TakesItsCourse(s, steps, w, id, lookahead)
    ensures IsCurrent(Reach(s, steps, lookahead), w, id, initial)
    ensures var t := Reach(s, steps, lookahead);
            !IsPricing(t, w, id) ==> t.db.defs[id].amountCents == LastAmount(t.db.reports, id, initial)
    decreases |steps|
  {
    if steps == [] {
    } else {
      var n := |steps| - 1;
      assert forall k :: 0 <= k < n ==> steps[..n][..k] == steps[..k];
      AmountIsLastReported(s, steps[..n], w, id, initial, lookahead);
      StepKeepsCurrent(Reach(s, steps[..n], lookahead), steps[n], w, id, initial, lookahead);
    }
  }
}
