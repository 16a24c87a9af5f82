/**
 The calendar events of unpaid bills and the action that pays one
 (internal/handlers/events.go).
 */
module Events {
  import opened Basics
  import opened Civil
  import opened Ledger
  import opened Text
  import Money

  const PREFIX := "bill-instance-"

  function Uid(instance: nat): string {
    PREFIX + Print(instance)
  }

  /** How many digits a string starts with. */
  function DigitRun(s: string): (k: nat)
    ensures k <= |s| && AllDigits(s[..k])
    ensures k < |s| ==> !IsDigit(s[k])
  {
    if s == "" || !IsDigit(s[0]) then 0 else 1 + DigitRun(s[1..])
  }

  /** The `%d` of a scan: spaces, a sign, digits; what follows them is not looked at. */
  function ScanInt(s: string): Option<int> {
    var rest := TrimLeft(s);
    var signed := rest != "" && (rest[0] == '-' || rest[0] == '+');
    var digits := if signed then rest[1..] else rest;
    ParseInt((if signed then rest[..1] else "") + digits[..DigitRun(digits)])
  }

  /** `Sscanf(uid, "bill-instance-%d", &id)`. */
  function ScanUid(uid: string): Option<int> {
    if PREFIX <= uid then ScanInt(uid[|PREFIX|..]) else None
  }

  lemma {:induction false} AllDigitsRun(s: string)
    requires AllDigits(s)
    ensures DigitRun(s) == |s|
  {
    if s == "" {
    } else {
      AllDigitsRun(s[1..]);
    }
  }

  lemma DigitsScan(d: string)
    requires d != "" && AllDigits(d)
    ensures ScanInt(d) == ParseInt(d)
  {
    assert IsDigit(d[0]) && TrimLeft(d) == d;
    AllDigitsRun(d);
    assert "" + d[..|d|] == d;
  }

  /** What a scan reads: blanks are passed over, then a sign and digits are read, up to what is not a digit. */
  lemma ScanReadsNumber(before: string, sign: string, digits: string, rest: string)
    requires AllBlank(before) && (sign == "" || sign == "+" || sign == "-") && digits != "" && AllDigits(digits)
    requires rest == "" || !IsDigit(rest[0])
    ensures ScanInt(before + (sign + digits + rest)) == ParseInt(sign + digits)
  {
    var t := sign + digits + rest;
    assert t[0] == (if sign == "" then digits[0] else sign[0]);
    TrimLeftOf(before, t);
    DigitsEnd(digits, rest);
    if sign == "" {
      assert t == digits + rest && "" + (digits + rest)[..|digits|] == digits;
    } else {
      assert t[..1] == sign && t[1..] == digits + rest;
      assert (digits + rest)[..|digits|] == digits;
    }
  }

  lemma {:induction false} DigitsEnd(digits: string, rest: string)
    requires AllDigits(digits) && (rest == "" || !IsDigit(rest[0]))
    ensures DigitRun(digits + rest) == |digits|
    decreases |digits|
  {
    if digits == "" {
      assert digits + rest == rest;
    } else {
      assert (digits + rest)[0] == digits[0] && (digits + rest)[1..] == digits[1..] + rest;
      DigitsEnd(digits[1..], rest);
    }
  }

  /** An event's own uid scans back to its instance. */
  lemma UidScansBack(instance: nat)
    requires instance <= MAX_INT64
    ensures ScanUid(Uid(instance)) == Some(instance)
  {
    var d := Print(instance);
    assert Uid(instance)[|PREFIX|..] == d;
    DigitsScan(d);
    ValueOfPrint(instance);
    ParseDigits(d);
  }

  // ----- the list -----

  datatype Event = Event(uid: string, summary: string, start: Date, end: Date, allDay: bool)

  function EventOf(db: Db, i: nat): Event
    requires i in db.instances && db.instances[i].definition in db.defs
  {
    var r := db.instances[i];
    var d := db.defs[r.definition];
    Event(Uid(i), d.name + " bill due (" + Money.FormatCents(d.amountCents) + ")", r.due, AddDate(r.due, 0, 0, 1), true)
  }

  /**
   The event tells of the bill: its uid leads back to the instance, it lasts the
   whole due day, and its summary is the name, a fixed text and the printed
   amount.
   */
  predicate Tells(db: Db, i: nat, e: Event)
    requires i in db.instances && db.instances[i].definition in db.defs
  {
    var r := db.instances[i];
    var d := db.defs[r.definition];
    && "bill-instance-" <= e.uid && (i <= MAX_INT64 ==> ScanUid(e.uid) == Some(i))
    && e.start == r.due && DayNumber(e.end) == DayNumber(e.start) + 1 && e.allDay
    && d.name <= e.summary && e.summary[|d.name|..] == " bill due (" + Money.FormatCents(d.amountCents) + ")"
  }

  lemma NextDay(d: Date)
    ensures DayNumber(AddDate(d, 0, 0, 1)) == DayNumber(d) + 1
  {
    AddDaysIsExact(d, 1);
    CalendarIsGregorian(d);
    CalendarIsGregorian(AddDate(d, 0, 0, 1));
  }

  lemma TextAfterName(name: string, text: string, amount: string)
    ensures var s := name + text + amount + ")"; name <= s && s[|name|..] == text + amount + ")"
  {
    assert name + text + amount + ")" == name + (text + amount + ")");
  }

  lemma EventTells(db: Db, i: nat)
    requires i in db.instances && db.instances[i].definition in db.defs
    ensures Tells(db, i, EventOf(db, i))
  {
    var d := db.defs[db.instances[i].definition];
    if i <= MAX_INT64 {
      UidScansBack(i);
    }
    NextDay(db.instances[i].due);
    TextAfterName(d.name, " bill due (", Money.FormatCents(d.amountCents));
  }

  /** A result of `ListUpcomingUnpaid`: the unpaid rows up to a day, each once, by due date. */
  ghost predicate IsListing(db: Db, to: Date, rows: seq<nat>) {
    && (forall j, k :: 0 <= j < k < |rows| ==> rows[j] != rows[k])
    && (forall i :: i in rows <==> i in UpcomingUnpaid(db, to))
    && (forall j, k :: 0 <= j < k < |rows| ==>
          rows[j] in db.instances && rows[k] in db.instances
          && Ordinal(db.instances[rows[j]].due) <= Ordinal(db.instances[rows[k]].due))
  }

  /** The loop of `Events` over the rows listed. */
  method ListEvents(db: Db, rows: seq<nat>) returns (events: seq<Event>)
    requires forall k :: 0 <= k < |rows| ==> rows[k] in db.instances && db.instances[rows[k]].definition in db.defs
    ensures |events| == |rows|
    ensures forall k :: 0 <= k < |rows| ==> Tells(db, rows[k], events[k]) && events[k] == EventOf(db, rows[k])
  {
    events := [];
    for k := 0 to |rows|
      invariant |events| == k
      invariant forall j :: 0 <= j < k ==> events[j] == EventOf(db, rows[j])
    {
      events := events + [EventOf(db, rows[k])];
    }
    forall k | 0 <= k < |rows|
      ensures Tells(db, rows[k], events[k])
    {
      EventTells(db, rows[k]);
    }
  }

  // ----- the action -----

  datatype Status = Done | NotFound | BadRequest | Failed

  function Acted(db: Db, action: string, uid: string): (Db, Status) {
    if action != "mark_paid" then (db, NotFound)
    else match ScanUid(uid)
      case None => (db, BadRequest)
      case Some(n) => if n >= 0 && n in db.instances then (Paid(db, n), Done) else (db, Failed)
  }

  /**
   The answer to an action: not found exactly if it is not the paying one, a bad
   request exactly if the uid is no bill's, done exactly if it names a row, and
   then that row is paid; the tables change in no other case.
   */
  lemma ActionIsExact(db: Db, action: string, uid: string)
    ensures var (db', status) := Acted(db, action, uid);
            && (status == NotFound <==> action != "mark_paid")
            && (status == BadRequest <==> action == "mark_paid" && ScanUid(uid).None?)
            && (status == Done <==>
                  action == "mark_paid" && exists i: nat :: i in db.instances && ScanUid(uid) == Some(i))
            && (status == Done ==> db' == Paid(db, ScanUid(uid).value))
            && (status != Done ==> db' == db)
  {
    if ScanUid(uid).Some? && ScanUid(uid).value >= 0 {
      var i: nat := ScanUid(uid).value;
      assert i in db.instances ==> ScanUid(uid) == Some(i);
    }
  }

  /** The instance's event is the same in both states. */
  ghost predicate SameEvent(a: Db, b: Db, i: nat) {
    && i in a.instances && a.instances[i].definition in a.defs
    && i in b.instances && b.instances[i].definition in b.defs
    && EventOf(b, i) == EventOf(a, i)
  }

  function Without(s: seq<nat>, k: nat): seq<nat>
    requires k < |s|
  {
    s[..k] + s[k + 1..]
  }

  lemma WithoutMembers(s: seq<nat>, k: nat, i: nat)
    requires k < |s| && forall j, l :: 0 <= j < l < |s| ==> s[j] != s[l]
    ensures i in Without(s, k) <==> i in s && i != s[k]
  {
    if i in s && i != s[k] {
      var j :| 0 <= j < |s| && s[j] == i;
      if j < k {
        assert Without(s, k)[j] == i;
      } else {
        assert Without(s, k)[j - 1] == i;
      }
    }
  }

  /**
   Posting the uid of a listed event pays exactly its instance: the list without
   it is a list of what is now unpaid, and the other events read as before.
   */
  lemma PostingUidRemovesItsEvent(db: Db, to: Date, rows: seq<nat>, k: nat, event: Event)
    requires Valid(db) && IsListing(db, to, rows) && k < |rows| && rows[k] in db.instances && rows[k] <= MAX_INT64
    requires db.instances[rows[k]].definition in db.defs && Tells(db, rows[k], event)
    ensures var (db', status) := Acted(db, "mark_paid", event.uid);
            && status == Done && db' == Paid(db, rows[k])
            && IsListing(db', to, Without(rows, k))
            && forall i :: i in UpcomingUnpaid(db', to) ==> SameEvent(db, db', i)
  {
    var i := rows[k];
    assert i in rows;
    PaidKeepsValid(db, i);
    PaidRemovesOne(db, to, i);
    forall j: nat
      ensures j in Without(rows, k) <==> j in UpcomingUnpaid(Paid(db, i), to)
    {
      WithoutMembers(rows, k, j);
    }
    WithoutIsSorted(db, Paid(db, i), to, rows, k);
    forall j | j in UpcomingUnpaid(Paid(db, i), to)
      ensures SameEvent(db, Paid(db, i), j)
    {
      OthersSameEvent(db, i, j);
    }
  }

  lemma OthersSameEvent(db: Db, i: nat, j: nat)
    requires Valid(db) && j in db.instances
    ensures SameEvent(db, Paid(db, i), j)
  {}

  lemma PaidRemovesOne(db: Db, to: Date, i: nat)
    requires i in db.instances
    ensures forall j :: j in UpcomingUnpaid(Paid(db, i), to) <==> j in UpcomingUnpaid(db, to) && j != i
  {}

  lemma WithoutIsSorted(db: Db, db': Db, to: Date, rows: seq<nat>, k: nat)
    requires IsListing(db, to, rows) && k < |rows| && db' == Paid(db, rows[k])
    ensures var s := Without(rows, k);
            && (forall i, j :: 0 <= i < j < |s| ==> s[i] != s[j])
            && (forall i, j :: 0 <= i < j < |s| ==>
                  s[i] in db'.instances && s[j] in db'.instances
                  && Ordinal(db'.instances[s[i]].due) <= Ordinal(db'.instances[s[j]].due))
  {
    var s := Without(rows, k);
    forall i, j | 0 <= i < j < |s|
      ensures s[i] != s[j] && s[i] in db'.instances && s[j] in db'.instances
      ensures Ordinal(db'.instances[s[i]].due) <= Ordinal(db'.instances[s[j]].due)
    {
      var i', j' := if i < k then i else i + 1, if j < k then j else j + 1;
      assert s[i] == rows[i'] && s[j] == rows[j'];
    }
  }
}
