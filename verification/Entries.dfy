/**
 The two validators that turn outside input into bill definitions: bills.json
 entries (internal/handlers/bootstrap.go) and the settings form
 (internal/handlers/settings.go). Amounts arrive in cents, dates parsed and
 passwords resolved; `None` stands for text that did not parse.
 */
module Entries {
  import opened Basics
  import opened Civil
  import opened Schedule
  import opened Ledger
  import opened Text

  datatype Entry = Entry(
    name: string,
    amountCents: int,
    schedule: string,
    dayOfMonth: Option<int>,
    quarterStart: Option<int>,
    oneOffDate: Option<Date>,
    vendorURL: string,
    connector: string,
    tenant: string,
    username: string,
    password: Option<string>)

  datatype Form = Form(
    name: string,
    amountCents: Option<int>,
    schedule: string,
    dayOfMonth: Option<int>,
    quarterStart: Option<int>,
    oneOffDate: Option<Date>,
    vendorURL: string)

  predicate Between(n: Option<int>, lo: int, hi: int) {
    n.Some? && lo <= n.value <= hi
  }

  /** `billBootstrapToDefinition`. A connector entry ignores its schedule fields, not its amount. */
  function FromEntry(e: Entry): Option<Definition> {
    if e.name == "" then None
    else
      var url := if e.vendorURL != "" then Some(e.vendorURL) else None;
      var def := (p: Plan) => Definition(e.name, e.amountCents, p, url, false);
      if e.connector != "" then Some(def(Plan(Vendor, None, None, None)))
      else if e.schedule == "monthly" then
        if !Between(e.dayOfMonth, 1, 31) then None
        else Some(def(Plan(Monthly, e.dayOfMonth, None, None)))
      else if e.schedule == "quarterly" then
        if !Between(e.dayOfMonth, 1, 31) then None
        else if !Between(e.quarterStart, 1, 3) then None
        else Some(def(Plan(Quarterly, e.dayOfMonth, e.quarterStart, None)))
      else if e.schedule == "one_off" then
        if e.oneOffDate.None? then None
        else Some(def(Plan(OneOff, None, None, e.oneOffDate)))
      else None
  }

  /** `parseBillForm`. */
  function FromForm(f: Form): Option<Definition> {
    var name := TrimSpace(f.name);
    if name == "" then None
    else if f.amountCents.None? then None
    else
      var url := if f.vendorURL != "" then Some(TrimSpace(f.vendorURL)) else None;
      var def := (p: Plan) => Definition(name, f.amountCents.value, p, url, false);
      if f.schedule == "monthly" then
        if f.dayOfMonth.None? || f.dayOfMonth.value < 1 || f.dayOfMonth.value > 31 then None
        else Some(def(Plan(Monthly, f.dayOfMonth, None, None)))
      else if f.schedule == "quarterly" then
        if f.dayOfMonth.None? || f.dayOfMonth.value < 1 || f.dayOfMonth.value > 31 then None
        else if f.quarterStart.None? || f.quarterStart.value < 1 || f.quarterStart.value > 3 then None
        else Some(def(Plan(Quarterly, f.dayOfMonth, f.quarterStart, None)))
      else if f.schedule == "one_off" then
        if f.oneOffDate.None? then None
        else Some(def(Plan(OneOff, None, None, f.oneOffDate)))
      else None
  }

  /** The input of a form that a scheduled entry corresponds to. */
  function AsForm(e: Entry): Form {
    Form(e.name, Some(e.amountCents), e.schedule, e.dayOfMonth, e.quarterStart, e.oneOffDate, e.vendorURL)
  }

  function ScheduleText(k: Kind): string {
    match k
    case Monthly => "monthly"
    case Quarterly => "quarterly"
    case OneOff => "one_off"
    case Vendor => ""
  }

  // ----- what they accept -----

  /** An optional link: none exactly for the empty text. */
  predicate IsLink(url: Option<string>, given: string, text: string) {
    (url.Some? <==> given != "") && (url.Some? ==> url.value == text)
  }

  /** A scheduled plan is the one the fields name: its kind, and each column it uses. */
  predicate IsPlanOf(p: Plan, schedule: string, day: Option<int>, start: Option<int>, date: Option<Date>) {
    && WellShaped(p) && p.kind != Vendor && ScheduleText(p.kind) == schedule
    && (p.dayOfMonth.Some? ==> p.dayOfMonth == day)
    && (p.quarterStart.Some? ==> p.quarterStart == start)
    && (p.oneOffDate.Some? ==> p.oneOffDate == date)
  }

  /** The definition an entry stands for. */
  predicate IsEntryOf(d: Definition, e: Entry) {
    && e.name != "" && d.name == e.name && d.amountCents == e.amountCents && !d.managed
    && IsLink(d.vendorURL, e.vendorURL, e.vendorURL)
    && if e.connector != "" then WellShaped(d.plan) && d.plan.kind == Vendor
       else IsPlanOf(d.plan, e.schedule, e.dayOfMonth, e.quarterStart, e.oneOffDate)
  }

  /** The definition a form stands for: name and link trimmed, the amount a number. */
  predicate IsFormOf(d: Definition, f: Form) {
    && d.name == TrimSpace(f.name) != "" && f.amountCents == Some(d.amountCents) && !d.managed
    && IsLink(d.vendorURL, f.vendorURL, TrimSpace(f.vendorURL))
    && IsPlanOf(d.plan, f.schedule, f.dayOfMonth, f.quarterStart, f.oneOffDate)
  }

  lemma ScheduleTextsDiffer(a: Kind, b: Kind)
    ensures ScheduleText(a) == ScheduleText(b) <==> a == b
  {
    assert "monthly"[0] == 'm' && "quarterly"[0] == 'q' && "one_off"[0] == 'o';
  }

  /** The fields name at most one plan. */
  lemma PlanIsUnique(p: Plan, q: Plan, schedule: string, day: Option<int>, start: Option<int>, date: Option<Date>)
    requires IsPlanOf(p, schedule, day, start, date) && IsPlanOf(q, schedule, day, start, date)
    ensures p == q
  {
    ScheduleTextsDiffer(p.kind, q.kind);
  }

  /** And the one a validator builds is that one. */
  lemma NamedPlan(p: Plan, schedule: string, day: Option<int>, start: Option<int>, date: Option<Date>)
    requires IsPlanOf(p, schedule, day, start, date)
    ensures match p.kind
            case Monthly => schedule == "monthly" && p == Plan(Monthly, day, None, None)
            case Quarterly => schedule == "quarterly" && p == Plan(Quarterly, day, start, None)
            case _ => schedule == "one_off" && p == Plan(OneOff, None, None, date)
  {}

  /**
   `billBootstrapToDefinition` accepts an entry exactly if there is a definition
   it stands for, and yields that one; every other entry is refused.
   */
  lemma EntryIsExact(e: Entry, d: Definition)
    ensures FromEntry(e) == Some(d) <==> IsEntryOf(d, e)
  {
    if FromEntry(e).Some? {
      EntryYields(e);
      if IsEntryOf(d, e) {
        EntryIsUnique(e, FromEntry(e).value, d);
      }
    } else if IsEntryOf(d, e) {
      EntryIsAccepted(e, d);
    }
  }

  lemma EntryYields(e: Entry)
    requires FromEntry(e).Some?
    ensures IsEntryOf(FromEntry(e).value, e)
  {}

  lemma EntryIsUnique(e: Entry, a: Definition, b: Definition)
    requires IsEntryOf(a, e) && IsEntryOf(b, e)
    ensures a == b
  {
    if e.connector == "" {
      PlanIsUnique(a.plan, b.plan, e.schedule, e.dayOfMonth, e.quarterStart, e.oneOffDate);
    }
  }

  lemma EntryIsAccepted(e: Entry, d: Definition)
    requires IsEntryOf(d, e)
    ensures FromEntry(e).Some?
  {
    if e.connector == "" {
      NamedPlan(d.plan, e.schedule, e.dayOfMonth, e.quarterStart, e.oneOffDate);
      ScheduleTextsDiffer(d.plan.kind, Monthly);
      ScheduleTextsDiffer(d.plan.kind, Quarterly);
    }
  }

  /** `parseBillForm` accepts a form exactly if there is a definition it stands for, and yields that one. */
  lemma FormIsExact(f: Form, d: Definition)
    ensures FromForm(f) == Some(d) <==> IsFormOf(d, f)
  {
    if FromForm(f).Some? {
      FormYields(f);
      if IsFormOf(d, f) {
        PlanIsUnique(FromForm(f).value.plan, d.plan, f.schedule, f.dayOfMonth, f.quarterStart, f.oneOffDate);
      }
    } else if IsFormOf(d, f) {
      FormIsAccepted(f, d);
    }
  }

  lemma FormYields(f: Form)
    requires FromForm(f).Some?
    ensures IsFormOf(FromForm(f).value, f)
  {}

  lemma FormIsAccepted(f: Form, d: Definition)
    requires IsFormOf(d, f)
    ensures FromForm(f).Some?
  {
    NamedPlan(d.plan, f.schedule, f.dayOfMonth, f.quarterStart, f.oneOffDate);
    ScheduleTextsDiffer(d.plan.kind, Monthly);
    ScheduleTextsDiffer(d.plan.kind, Quarterly);
  }

  /**
   Which schedules are accepted, field by field: a day from 1 to 31, for a
   quarterly bill also a first month from 1 to 3, for a one-off bill a date.
   */
  lemma AcceptedSchedules(e: Entry)
    requires e.name != "" && e.connector == ""
    ensures FromEntry(e).Some? <==>
              || (e.schedule == "monthly" && e.dayOfMonth.Some? && 1 <= e.dayOfMonth.value <= 31)
              || (e.schedule == "quarterly" && e.dayOfMonth.Some? && 1 <= e.dayOfMonth.value <= 31
                  && e.quarterStart.Some? && 1 <= e.quarterStart.value <= 3)
              || (e.schedule == "one_off" && e.oneOffDate.Some?)
  {}

  /** An accepted entry meets the shape CHECK; it is a vendor bill exactly when it names a connector. */
  lemma EntryMeetsCheck(e: Entry)
    requires FromEntry(e).Some?
    ensures var d := FromEntry(e).value;
            && WellShaped(d.plan) && d.name == e.name && d.amountCents == e.amountCents && !d.managed
            && (d.plan.kind == Vendor <==> e.connector != "")
  {}

  /** An accepted form meets the shape CHECK and is never a vendor bill. */
  lemma FormMeetsCheck(f: Form)
    requires FromForm(f).Some?
    ensures var d := FromForm(f).value;
            WellShaped(d.plan) && d.plan.kind != Vendor && d.name == TrimSpace(f.name) != "" && !d.managed
  {}

  /**
   On the same fields the validators accept the same input and build the same
   plan, but for a name of blanks only, which the form refuses and the file does
   not; and the form trims the name.
   */
  lemma ValidatorsAgree(e: Entry)
    requires e.connector == ""
    ensures FromForm(AsForm(e)).Some? <==> FromEntry(e).Some? && TrimSpace(e.name) != ""
    ensures FromForm(AsForm(e)).Some? ==>
              var f, d := FromForm(AsForm(e)).value, FromEntry(e).value;
              f.plan == d.plan && f.amountCents == d.amountCents && f.name == TrimSpace(d.name)
  {}

  /** Every plan the CHECK accepts, vendor bills aside, can be written as an entry. */
  lemma EveryPlanHasAnEntry(p: Plan)
    requires WellShaped(p) && p.kind != Vendor
    ensures var e := Entry("n", 0, ScheduleText(p.kind), p.dayOfMonth, p.quarterStart, p.oneOffDate,
                           "", "", "", "", None);
            FromEntry(e).Some? && FromEntry(e).value.plan == p
  {
    assert "monthly"[0] == 'm' && "quarterly"[0] == 'q' && "one_off"[0] == 'o';
  }
}
