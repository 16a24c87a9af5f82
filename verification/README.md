# Bill Tracker: a Dafny model and its proofs

The Bill Tracker plugin keeps three tables: bill definitions (a rule such as
"monthly on the 31st"), bill instances (one row per due date, paid or not) and
vendor connections (a login from which a bill's amount and due date are read).
Several processes write to them: the scheduler's tick, the settings page, the
reconciliation with `bills.json` at startup, and the vendor refresh. This
project models the tables with the schema's constraints, every store call, the
calendar engine that turns a rule into due dates, and those processes; and it
proves what holds in every state and over every run. Around that core it models
the SimpleFIN connection, the money parsers, the version check, the page search
of the vendor connectors and the event list.

Verify everything with `dafny verify dfyconfig.toml`.

## How it is put together

| file | what it holds |
|---|---|
| `Basics.dfy` | `Option` and `Min` |
| `Civil.dfy` | months, dates, day numbers, `time.Date` and `AddDate`; the calendar in closed form |
| `Schedule.dfy` | plans, the declarative due date, `NextDueDates` with its loop, exactness, windows, spacing |
| `Ledger.dfy` | the tables, their constraints, the store calls as functions, runs of arbitrary calls |
| `World.dfy`, `Provenance.dfy` | the running service as interleaved workers holding stale snapshots; its invariant and theorems |
| `Entries.dfy` | the two validators |
| `Refresh.dfy`, `Handlers.dfy` | generation, refresh, tick and settings actions as functions of the tables |
| `Undisturbed.dfy`, `WholeTick.dfy`, `WholePass.dfy` | a worker of the running service that nothing interleaves with computes those functions, and nothing else |
| `Reconcile.dfy`, `Footprint.dfy` | the reconciliation, and what its writes leave alone |
| `ReconcileResult.dfy`, `ReconcileNames.dfy`, `ReconcileExact.dfy`, `MixedFile.dfy` | what it leaves alone, the names and rows it ends with, its exact outcome, and when running it again changes nothing |
| `Credentials.dfy` | which logins it saves, entry by entry and over the whole file |
| `LastKnown.dfy` | the last known good amount over whole runs, from the restart that creates the bill |
| `LastReport.dfy` | the same for the running service, under any interleaving with one refresher |
| `Leftover.dfy` | what a refresh pass does to amounts, leftover connections included |
| `VendorCache.dfy` | the staleness cache in front of vendor logins, over time |
| `Effects.dfy` | what each store call and handler does as its caller sees it, as relations between the tables before and after |
| `Database.dfy` | the tables as a class updated in place; each method proved against those relations and the functions above |
| `Text.dfy`, `Money.dfy`, `Version.dfy`, `Dom.dfy`, `Events.dfy`, `SimpleFin.dfy` | the smaller cores |

What comes from outside is a parameter: the clock, what a vendor answers, which
store calls fail, and which row a lookup by name returns (names are not unique,
so it may be any of them). Each store call is one atomic step. Days are civil
days in one time zone. `reports`, `hist`, `born`, `done` and `log` record what
happened and are read only by the statements.

## Where the code and its documentation differ, and what was found

- A money text that ends in a dot ("5.") is an error in all three parsers, although every other decimal numeral whose whole part fits parses; `ParsesIffNoTrailingDot` is the exact condition. A whole part that fits int64 but whose cents do not wraps around silently (`ParsersAreExact`).
- Reconciling twice is not always idempotent: if a name has an entry with a schedule and, after it, one with a connector, a vendor's answer during one run is overwritten by the next. `IdempotentIff` says exactly for which files this can happen, for positive intervals and with every store call going through, and `ReconcileAgain` exactly when it does.
- Names are not unique in the table, and the settings page does not check them. The file-managed names after a reconciliation are the valid entries' names that the settings page does not use if and only if no name of the file is on bills of both sides (`NamesAsStatedIff`), and a form is enough to make one so (`SharedIsReached`); `ManagedNamesAre` gives the names in every case. That each file-managed bill carries what its last entry says (`ReconcileOutcome`) needs only that it is the one bill of its name. What is said about bills of the settings page, about surviving rows and about vendor bills needs neither.
- The comment on `internal/config/bills_bootstrap.go:32` says a connector entry's amount is ignored, and `internal/handlers/bootstrap.go:69` calls it a zero placeholder; the code stores the amount when it creates the row. The model follows the code.
- A connection outlives its connector entry: no store call but the deletion of its bill removes the row (`ConnectionOutlives`), and it goes on setting the amount whatever the bill's plan has become (`LeftoverSetsAmount`, `PassChangesAmountIff`).
- If the stamp of a vendor login is lost, because the process dies before it or its store call fails (the error is ignored), the next pass logs in again however soon it comes; `LostStampBreaksSpacing` says exactly when that breaks the spacing.
- A `bills.json` entry may be named with blanks only, and keeps blanks around its name; the settings form trims names and refuses empty ones (`ValidatorsAgree`).
- A SimpleFIN refresh in flight stores accounts after a disconnect has deleted them (`RefreshOutlivesDisconnect`); `AccountsStayDeletedIff` says exactly when they stay deleted.

## Model

| member | source | states |
|---|---|---|
| `Civil.OrderIsLexicographic` | internal/models/bill.go:251-259 | comparing day numbers, as `Before` and `After` compare instants, is comparing year, month, day; equal numbers are equal dates |
| `Civil.MonthSteps` | internal/models/bill.go:253-263 | from the first of a month, `AddDate(0, 1, -1)` is its last day and `AddDate(0, 1, 0)` the first of the next, leap years included |
| `Civil.AddDaysIsExact` | internal/scheduler/scheduler.go:135 | adding n days moves the day number by exactly n |
| `Civil.CalendarIsGregorian` | internal/models/bill.go:253 | day numbers and month lengths are those of the closed formula of the Gregorian calendar, for every date |
| `Schedule.NextDueDates` | internal/models/bill.go:200-266 | the loop terminates and returns, strictly increasing, exactly the due dates of the window, for every plan in column range and every window; in terms of the closed formula too |
| `Schedule.DueDatesAreExact` | internal/models/bill.go:235-265 | the due dates as a function are exactly the dates in a due month on the scheduled or clamped day within the window, in order |
| `Schedule.ExactIsUnique` | internal/models/bill.go:196-199 | the two exactness clauses determine the list |
| `Schedule.WindowsAdd` | internal/models/bill.go:200-266 | the dates of [a, c] are those of [a, b] followed by those of [b+1, c], for every kind |
| `Schedule.ConsecutiveGap` | internal/models/bill.go:241-263 | consecutive due dates are 28 to 31 days apart monthly, 89 to 92 quarterly |
| `Schedule.WindowIsNotEmpty` | internal/models/bill.go:241-263 | any 31 days hold a monthly due date, any 92 a quarterly one |
| `Ledger.CallKeepsValid` | internal/db/migrations/00001_initial_schema.sql:19-134 | every store call, with any arguments, keeps shape CHECK, references, the unique pair, one connection per bill and fresh ids |
| `Ledger.RunKeepsValid` | internal/db/migrations/00001_initial_schema.sql:19-134 | so does every sequence of store calls |
| `Ledger.PaidIsFinal` | internal/models/bill.go:320-348 | over any sequence of store calls a row is deleted exactly if its definition was, else kept with its date, paid exactly if it was or was marked, and alone for its pair |
| `Ledger.UnpaidUntilPaidOrDeleted` | internal/models/bill.go:272-290 | an unpaid row stays on the list for the same upper date if and only if it is neither paid nor its definition deleted |
| `Ledger.ListedIffDueBy` | internal/models/bill.go:278-290 | a row is listed exactly if it is unpaid and its due date is not after the upper date, by year, month and day |
| `Ledger.ListedFromItsDay` | internal/models/bill.go:283 | an unpaid row is listed for its own due date, not for the day before; a later upper date lists no less |
| `Ledger.ManagedForLife` | internal/models/bill.go:130-163 | over any calls the managed flag never changes and only a settings edit renames |
| `Ledger.ConnectionHistory` | internal/models/vendor_connection.go:68-105 | over any calls a connection shows its last sync, error and login and the last non-empty account number, and keeps its definition |
| `Ledger.ConnectionOutlives` | internal/models/vendor_connection.go:68-105 | over any calls a connection is still there, with its definition, if and only if its bill was not deleted |
| `World.WindowIsExact` | internal/scheduler/scheduler.go:129-143 | generation on a day asks for exactly the due dates of that day and the lookahead after it |
| `Provenance.ReachKeepsInv` | internal/scheduler/scheduler.go:110-143 | the invariant holds in every state reachable by any interleaving, store failure and crash |
| `Provenance.EveryInstanceIsExplained` | internal/scheduler/scheduler.go:285-292 | every instance has a live definition, is unique for its pair, and its date was due under a plan the definition held on a day it existed, or was reported with something owed |
| `Provenance.NoGaps` | internal/scheduler/scheduler.go:129-143 | with completed generations at most lookahead+1 days apart, every due date of the plan from the first of them to the end of the last window has an instance, whatever else was edited or reported |
| `Provenance.NothingElse` | internal/scheduler/scheduler.go:285-292 | a definition that held one plan only has no instance but due dates of that plan from its creation to the lookahead, and due dates a vendor reported as owed |
| `Provenance.ExactlyTheDueDates` | internal/scheduler/scheduler.go:110-143 | so without reports the instances up to the last window's end are exactly the due dates from creation on |
| `Undisturbed.GenerationCompletes` | internal/scheduler/scheduler.go:137-142 | the steps a generation has left ensure exactly the dates left, record it as completed and go on with the list |
| `Undisturbed.TickComputesTicked` | internal/scheduler/scheduler.go:110-143 | whichever inserts are to fail, steps of the tick's worker alone take it through its list to the tables of `Ticked` |
| `WholeTick.WholeTickIsTicked` | internal/scheduler/scheduler.go:110-143 | every run of the worker's own steps to the end of its list leaves the tables of `Ticked` for some pattern of failures; so every listed bill whose inserts went through has its window and nothing was added but due dates |
| `WholePass.PassComputesPassed` | internal/scheduler/scheduler.go:221-253 | listing the connections and skipping or refreshing each computes `Passed` on the rows listed |
| `Undisturbed.AddComputesBillAdded` | internal/handlers/settings.go:160-174 | the steps of a settings add, generation included, compute `BillAdded` |
| `Undisturbed.EditComputesBillUpdated` | internal/handlers/settings.go:176-201 | those of a settings edit compute `BillUpdated` |
| `Undisturbed.ReloadComputes` | internal/handlers/bootstrap.go:78-91 | those of a scheduled entry for a row that exists compute the file's edit and the generation |
| `Undisturbed.CrashEndsAll` | internal/scheduler/scheduler.go:110-143 | after a crash nothing under way writes anything |
| `Undisturbed.RefreshComputesRefreshedNow` | internal/scheduler/scheduler.go:259-296 | a refresh that nothing interleaves with computes `RefreshedNow`, whichever of its store calls fail |
| `Provenance.MonthlyAlwaysUpcoming` | internal/scheduler/scheduler.go:124-141 | with lookahead 30 or more, a completed generation leaves a monthly bill an instance in its window |
| `Provenance.GuardsAreNeverTaken` | internal/models/bill.go:212-234 | no worker ever holds a plan that meets a missing-field guard of `NextDueDates` |
| `Provenance.PaidStaysPaid` | internal/models/bill.go:332-348 | in every interleaving an instance stays until its definition is deleted, and is paid exactly if it was or was marked |
| `Entries.EntryMeetsCheck` | internal/handlers/bootstrap.go:157-202 | an accepted entry meets the shape CHECK and is a vendor bill exactly if it names a connector |
| `Entries.FormMeetsCheck` | internal/handlers/settings.go:233-282 | an accepted form meets the shape CHECK, is never a vendor bill, has a trimmed non-empty name |
| `Entries.EntryIsExact` | internal/handlers/bootstrap.go:157-202 | an entry yields a definition exactly if it stands for it: name, amount, link if any, and for its kind the one well-shaped plan whose columns are the entry's fields; every other entry is refused |
| `Entries.FormIsExact` | internal/handlers/settings.go:233-282 | the same of the form, with trimmed name and link and a parsed amount |
| `Entries.AcceptedSchedules` | internal/handlers/bootstrap.go:172-200 | a named entry without connector is accepted exactly with a day from 1 to 31, a first month from 1 to 3 if quarterly, or a date if one-off |
| `Entries.ValidatorsAgree` | internal/handlers/settings.go:233-279 | on the same fields the form accepts exactly what the file does, names of blanks only aside, and builds the same plan and amount under the trimmed name |
| `Entries.EveryPlanHasAnEntry` | internal/db/migrations/00001_initial_schema.sql:23-31 | every scheduled plan the CHECK accepts is produced by some entry |
| `ReconcileResult.ReconcileKeepsUi` | internal/handlers/bootstrap.go:37-108 | from any state, with any failures and any rows returned, bills of the settings page keep definition, instances and connection |
| `ReconcileNames.ManagedNamesAre` | internal/handlers/bootstrap.go:41-107 | from any state, without store failures: a name is file-managed afterwards exactly if a valid entry has it and it was file-managed or not used by the settings page |
| `ReconcileNames.NamesAsStatedIff` | internal/handlers/bootstrap.go:30-36 | the file-managed names are the valid entries' names that the settings page does not use, if and only if no name of the file is on bills of both sides |
| `ReconcileNames.AddingSharesName` | internal/handlers/settings.go:160-174 | adding a settings bill under a file-managed name of the file makes the name shared, in any state |
| `ReconcileNames.SharedIsReached` | internal/models/bill.go:111-117 | from empty tables, a restart with one entry and a form of that name reach it |
| `ReconcileNames.FileBillsSurvive` | internal/handlers/bootstrap.go:66-107 | from any state and whatever fails: file-managed bills whose name is in the file keep id and name, and bills that stay keep every instance |
| `ReconcileNames.UnseenIsRemovedIff` | internal/handlers/bootstrap.go:94-107 | a file-managed bill the file does not name is gone exactly if the list and its own deletion go through, whatever else fails |
| `ReconcileResult.EntryIsCarriedOrGivenUp` | internal/handlers/bootstrap.go:41-91 | an entry is carried by its row exactly if lookup and write go through and the row may be written; else no table changes |
| `ReconcileExact.FoldedIsLast` | internal/handlers/bootstrap.go:66-82 | the entries of a name leave the plan and link of the last valid one and the amount of the last one without connector |
| `ReconcileExact.ReconcileOutcome` | internal/handlers/bootstrap.go:30-108 | without store failures, if each file-managed bill the file names is the only one of its name: the managed names are the valid entries' names minus those of the settings page, each row follows its last valid entry, survivors keep id and instances, distinct names stay distinct |
| `ReconcileExact.ReconcileAgain` | internal/handlers/bootstrap.go:41-107 | a second run on the same day without vendor answers changes no instance, and no definition if and only if the stored amounts are those of the last entries without connector |
| `ReconcileExact.QuietRunSettles` | internal/handlers/bootstrap.go:66-87 | that condition holds if no vendor answered in the first run |
| `ReconcileExact.UnmixedSettles` | internal/handlers/bootstrap.go:66-87 | that condition holds, whatever vendors answered, if no name outside the settings page has an entry without connector and after the last such entry one that can log in |
| `Credentials.AttachDoes` | internal/handlers/bootstrap.go:115-155 | exactly when the entry has a login and the store calls go through, the bill's connection has its connector, tenant, user name and password; exactly when it is read back stale the vendor is called, and amount, due date and stamp follow; else nothing more changes |
| `Credentials.ReconciledLogins` | internal/handlers/bootstrap.go:41-107 | after a reconciliation each file-managed bill logs in with the fields of the last valid entry of its name that can log in, or as before where there is none |
| `MixedFile.MixedFileIsNotIdempotent` | internal/handlers/bootstrap.go:66-87 | for every other file, on every day and for every positive interval, some vendor answer in the first run makes the second change a definition, all store calls going through |
| `MixedFile.IdempotentIff` | internal/handlers/bootstrap.go:41-107 | a second run leaves every definition as it is whatever vendors answered in the first, if and only if the file is of the first kind; over all pairs of orderly runs with a positive interval |
| `Reconcile.RemovedOneByOne` | internal/handlers/bootstrap.go:99-107 | the removal pass deletes a set, in whatever order |
| `LastKnown.LastKnownGoodAmount` | internal/handlers/bootstrap.go:66-87 | over any run of restarts, refresh passes, ticks, settings actions and payments a vendor bill's amount is the last reported one or its first, and its instances are reported due dates with something owed |
| `LastKnown.RestartCreatesGood` | internal/handlers/bootstrap.go:51-91 | a restart whose file has a free name as a connector leaves the name free or such a bill with an entry's amount; without store failures, the bill with its first entry's amount |
| `LastKnown.LastKnownFromCreation` | internal/handlers/bootstrap.go:51-91 | a run that begins with the restart that creates the bill has the property in every state after it |
| `LastReport.AmountIsLastReported` | internal/scheduler/scheduler.go:279-294 | in every interleaving with one refresher whose answers are written, whenever it is not about to write one about the bill, the amount is the last reported or the first |
| `LastReport.CreationIsCurrent` | internal/models/bill.go:119-128 | a bill just created starts such a run, with its own amount |
| `Leftover.PassChangesAmountIff` | internal/scheduler/scheduler.go:221-296 | a refresh pass changes a bill's amount, and nothing else of its row, if and only if it has a listed stale connection whose vendor answers with another amount that can be written; its plan does not matter |
| `Leftover.LeftoverSetsAmount` | internal/scheduler/scheduler.go:279-282 | after any calls that do not delete the bill, a pass that lists its connection sets the amount whenever the row is stale and the vendor answers |
| `Effects.PassOnConnection` | internal/scheduler/scheduler.go:259-296 | after a pass a connection shows the time and error of its last stamp and the last account number any answer gave; login, bill and managed flag are as before |
| `VendorCache.LoginsAreSpaced` | internal/scheduler/scheduler.go:244-296 | in every run in which no fetch under way loses its stamp, by a crash or a failing store call, two fetches for a connection row are at least the interval apart |
| `VendorCache.LoginsPerSpan` | internal/scheduler/scheduler.go:232-253 | a span W holds at most W / interval + 1 of them |
| `VendorCache.LostStampBreaksSpacing` | internal/scheduler/scheduler.go:279-294 | from every reachable fetch under way whose stamp is lost, by a crash or a failing store call, and whatever happens then: the next pass over the row fetches again, and its spacing is broken if and only if that is less than an interval after the fetch |
| `VendorCache.NotSkippedTwice` | internal/scheduler/scheduler.go:205-253 | a connection not fetched since a pass that began an interval or more ago is fetched in the next pass that lists it and runs to its end, whatever happens meanwhile |
| `VendorCache.AttachCallsIfStale` | internal/handlers/bootstrap.go:145-154 | the reconciliation's attach calls the vendor exactly if the bill exists and its connection, if it had one, is stale; saving a login changes neither |
| `VendorCache.PassMakesRoom` | internal/scheduler/scheduler.go:205-230 | the checks and stamps of a pass run it to its end, and the next can begin |
| `Database.Database.constructor` | internal/db/migrations/00001_initial_schema.sql:8-134 | the tables start empty and meet the constraints |
| `Database.Database.Create` | internal/models/bill.go:119-128 | an id that nothing in the tables has been about, under which the definition is found; or none, and no new row, exactly if a CHECK is violated; the other rows the same |
| `Database.Database.Update` | internal/models/bill.go:132-140 | of one row name, amount, plan and link are the new ones and the managed flag is kept; a missing row stays missing without error; all else the same |
| `Database.Database.UpdateBootstrap` | internal/models/bill.go:145-153 | the same with the name kept too |
| `Database.Database.UpdateAmount` | internal/models/bill.go:160-163 | no column of any row differs but the amount of one, which is the new one if it fits |
| `Database.Database.Delete` | internal/models/bill.go:165-168 | no row, instance or connection of the definition is left, and every one of the others is |
| `Database.Database.EnsureInstance` | internal/models/bill.go:323-330 | a pair is there afterwards exactly if it was or it is this one and its definition exists; rows that were there, paid or not, are the same; new ones unpaid |
| `Database.Database.MarkPaid` | internal/models/bill.go:334-348 | every list of unpaid bills loses that row and no other; it reports whether the row exists |
| `Database.Database.Upsert` | internal/models/vendor_connection.go:72-86 | a bill has a connection afterwards exactly if it had one or is this one and exists; its login is the new one; every connection keeps its id and sync history |
| `Database.Database.MarkSynced` | internal/models/vendor_connection.go:93-105 | one row is fresh until an interval from now, for every interval, and shows the error; account number kept when none is given; the other rows the same |
| `Database.Database.GenerateInstances` | internal/scheduler/scheduler.go:129-143 | unless an insert fails the whole window is there; what is new is an unpaid due date of the window; all else the same |
| `Database.Database.Tick` | internal/scheduler/scheduler.go:110-122 | every listed bill has its window, whatever fails for the others; what is new is a due date of a listed plan |
| `Database.Database.RefreshNow` | internal/scheduler/scheduler.go:259-296 | of the bill only the amount changes, to the one reported; a due date is there exactly if it was or is the reported one of something owed; the connection gets time, error and the account number if one is reported, its login, bill and managed flag staying |
| `Database.Database.RefreshIfStale` | internal/scheduler/scheduler.go:244-253 | nothing changes while the row read is fresher than the interval; else the same as a refresh |
| `Database.Database.RefreshPass` | internal/scheduler/scheduler.go:221-230 | the loop computes `Passed`; an amount changes exactly if a stale listed connection of the bill is answered with another one; each connection shows its last stamp and account number |
| `Database.Database.AddBill` | internal/handlers/settings.go:160-174 | a valid form becomes a settings bill under a new id with its window, nothing else touched; any other form changes no table |
| `Database.Database.UpdateBill` | internal/handlers/settings.go:176-201 | a settings bill takes a valid form's values, keeps its instances and connection and has its window; a managed or missing one, or an invalid form, changes nothing |
| `Database.Database.DeleteBill` | internal/handlers/settings.go:203-219 | nothing of a settings bill is left and everything of the others is; a managed or missing one changes nothing |
| `Database.Database.AttachVendorConnection` | internal/handlers/bootstrap.go:115-155 | saves the entry's connector, tenant, user name and password, reads the row back, refreshes it if stale, each error ending it there; only that bill's amount, instances and connection may differ, and no instance is lost |
| `Database.Database.ReconcileEntry` | internal/handlers/bootstrap.go:47-91 | an entry that gets through is carried by its row, one that does not changes no table; only one row of the file's, under the entry's name, is worked on, and no instance is lost |
| `Database.Database.BootstrapBills` | internal/handlers/bootstrap.go:37-108 | the loop and the removal pass compute `Reconciled`, the function the theorems are about; settings bills are the same, surviving bills keep id and instances |
| `Money.ParseMoneyToCents` | internal/simplefin/client.go:246-287 | on every decimal numeral the parser as written gives a hundred times its value, cut and wrapped, or the error `ParsersAreExact` says; elsewhere what `MoneyToCents` says |
| `Money.ParseDollarsToCents` | internal/connectors/billeriq/billeriq.go:305-340 | on every decimal numeral the parser as written gives a hundred times its value, cut and wrapped, or the error `ParsersAreExact` says; elsewhere what `DollarsToCents` says |
| `Money.ParsersAreExact` | internal/connectors/columbiagaspa/columbiagaspa.go:240-275 | both parsers agree on every decimal numeral: an error for a trailing dot or an oversized whole part, else a hundred times the value cut toward zero, modulo int64 |
| `Money.ParsesIffNoTrailingDot` | internal/simplefin/client.go:259-270 | a numeral whose cents fit int64 parses to them if and only if it does not end in a dot |
| `Money.SignAndBlanks` | internal/simplefin/client.go:250-258 | the parser of bank balances reads the same with a plus sign and with blanks around the numeral |
| `Money.ReadsBackPrinted` | internal/handlers/view.go:26-36 | what `formatCents` prints is read back by `parseDollarsToCents` for every amount of the INTEGER column, with any separators or text inserted |
| `Money.PrintedForm` | internal/handlers/view.go:26-28 | what is printed is a dollar sign, a minus sign exactly for a negative amount, the whole part without leading zeros, a dot and two digits, and denotes the amount |
| `Version.CompareIsTotalOrder` | internal/release/release.go:261-289 | `compareVersions` is precedence and a total order |
| `Version.DevIsJustBelowRelease` | internal/release/release.go:259-277 | nothing lies between a dev build and its release |
| `Version.ParseVersion` | internal/release/release.go:237-257 | the loop over the parts computes `ParsedVersion` |
| `Version.ReadsBackWritten` | internal/release/release.go:237-257 | every version written out parses back |
| `Version.ParsesIffSpelled` | internal/release/release.go:237-257 | a text parses to a version exactly if it is its three integers joined by dots, and the suffix for a development build |
| `Version.DevTagsAreSpelled` | internal/release/release.go:158-162 | a tag names a development version exactly if it spells one, with or without a "v" before it |
| `Version.WrittenDevTags` | internal/release/release.go:158-162 | every development version written out is one, with or without the "v"; a release written out is none |
| `Version.NewerIsStrictOrder` | internal/release/release.go:220-230 | `IsNewer` is a strict order on parseable versions and false elsewhere |
| `Version.CheckDevTags` | internal/release/release.go:125-184 | over any tag list in pages of 100 it succeeds exactly if every page asked for is served and the first 1000 tags hold a dev version, and then picks the first greatest |
| `Dom.FindFirstIsFirst` | internal/connectors/billeriq/billeriq.go:239-249 | the recursive search returns the first match in document order, on every tree |
| `Dom.FindTextIsTextOfFirst` | internal/connectors/billeriq/billeriq.go:254-264 | the fused search equals taking the trimmed text of the first match |
| `Dom.MatchesIffWord` | internal/connectors/billeriq/billeriq.go:265-273 | an element matches a class exactly if the class is a word of its class attribute |
| `Dom.AttrIsFirst` | internal/connectors/billeriq/billeriq.go:289-296 | an attribute's value is that of the first with its key, or empty |
| `Dom.Walk` | internal/connectors/billeriq/billeriq.go:275-288 | the builder walk appends the text content |
| `Dom.TextContentIsTextOf` | internal/connectors/billeriq/billeriq.go:275-288 | the text content is that of the text nodes in document order |
| `Dom.PageIsReadInOrder` | internal/connectors/billeriq/billeriq.go:149-168 | within the first collection body in document order, or the page, the texts are those of the first due date, amount and account line, or the error for the first that is missing |
| `Events.UidScansBack` | internal/handlers/events.go:87 | an event's uid scans back to its instance |
| `Events.ListEvents` | internal/handlers/events.go:76-94 | one event per listed row, in order: its uid scans back to the instance, it lasts the due day, its summary holds name and amount |
| `Events.PostingUidRemovesItsEvent` | internal/handlers/events.go:132-143 | posting the uid of a listed event pays exactly its instance: the list without it lists what is unpaid, the other events unchanged |
| `Events.ActionIsExact` | internal/handlers/events.go:117-148 | each answer to an action is given exactly in its case, and the tables change only when it is done |
| `Events.ScanReadsNumber` | internal/handlers/events.go:132 | scanning passes over blanks and reads sign and digits up to what is not a digit |
| `SimpleFin.OneConnectionWithItsOwnStatus` | internal/models/simplefin_connection.go:56-89 | in every interleaving at most one connection, whose sync time and error are those of the last successful mark by a refresh that began on it, or none |
| `SimpleFin.StaleRefreshIsHarmless` | internal/scheduler/scheduler.go:165-203 | over any stretch of a run without such a mark, a connection present at both ends is the same |
| `SimpleFin.ConnectionIsLastMade` | internal/models/simplefin_connection.go:58-73 | in every interleaving a connection is the one last made, with its address |
| `SimpleFin.ChoicesStay` | internal/models/account.go:102-144 | an account present before and after a run has the visibility and name the parent set last |
| `SimpleFin.AccountsShowLastStored` | internal/models/account.go:104-121 | in every interleaving each account shows the name and balance last stored for its id, and no two accounts share an id |
| `SimpleFin.BalancesFollow` | internal/scheduler/scheduler.go:186-198 | from any state an account shows what was stored for it since, or what it showed |
| `SimpleFin.NewAccountIsPlain` | internal/models/account.go:104-121 | an account comes up by storing a balance of an id that had none, visible and without display name |
| `SimpleFin.EveryBalanceIsStored` | internal/scheduler/scheduler.go:186-198 | a refresh that nothing interleaves with stores every balance it fetched |
| `SimpleFin.RefreshOutlivesDisconnect` | internal/handlers/settings.go:307-315 | a run that ends with accounts and no connection |
| `SimpleFin.AccountsStayDeletedIff` | internal/handlers/settings.go:307-315 | until the next connect the accounts stay deleted in every continuation, if and only if no refresh in flight waits for its answer or has balances left to store |
| `SimpleFin.DisconnectClears` | internal/handlers/settings.go:307-315 | a disconnect leaves no connection and no account, and every refresh in flight |

## Left out

- Postgres, SQL text, row scanning, migrations and transaction isolation: a store call is an atomic step on the tables; `paid_at` and `created_at` are not modelled.
- Id sequences: which values they skip after a failed insert is not modelled, only that no id is given out twice.
- Time zones, daylight saving and instants: the overdue flag and the window of the settings table depend on them and are not modelled.
- Floating point: cents arrive as integers, and `formatCents` is exact decimal printing, which is what `%.2f` yields for these amounts; the rounding of dollars to cents is not modelled.
- Text formats of dates, JSON decoding, form parsing and password files: their results are parameters.
- HTTP, vendor login flows, HTML parsing, SimpleFIN claims, GitHub requests and encryption: their answers are parameters.
- The day within a reconciliation: its clock moves on from entry to entry, but it is taken to end on the day it began.
- The reconciliation inside the running service: in `World` its store calls may come at any time and in any order, which includes what it does; its own result is about a reconciliation that nothing interleaves with, as at startup.
- VendorCache.LoginsAreSpaced: is about one refresher at a time, as the server runs it; a second process on the same tables is not modelled. What a lost stamp does is `LostStampBreaksSpacing`.
- `SimpleFin` and `VendorCache` are state machines on values rather than classes, because what matters there is which steps interleave; update in place is modelled in `Database`.
- `Register`, the bearer token, manifest, health check, version endpoint, release cache, logging and configuration: request plumbing that passes values on and keeps no table; not modelled.
- `BootstrapVendorConnections`: not called by the server.
