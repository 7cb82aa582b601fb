# WealthLedger expense screen and local-date helpers, modelled in Dafny

This project models two small pieces of the WealthLedger web front end and proves
properties about them.

- **The local calendar-date helpers** (`src/utils/dateUtils.ts`).
  - `formatLocalDateToIsoDateString` prints a date's local year, 1-based month and day
    as `YYYY-MM-DD`. The month and day are zero-padded to two digits. The year is printed
    as a plain decimal.
  - For years 1000..9999 the output is the `full-date` form of section 5.6 of RFC 3339.
  - `getCurrentLocalDate` rebuilds "now" at local midnight through the three-argument
    `Date` constructor.
  - A date is a record of the values its local getters return:
    `(year, month0, day, hours, minutes, seconds, millis)`.
- **The expense screen's controller** (`src/components/ExpenseList.tsx`, the version the
  router serves at `/expenses`). It is an immutable `State` with one pure transition
  function per handler.
  - Each promise continuation (list fetched, record fetched, create, update or delete
    settled) is its own event, and it carries the settled promise as a `Result`.
  - Every transition returns the HTTP requests it starts, so a run of events yields the
    exact request log.
  - The `createExpense` and `updateExpense` guards use JavaScript truthiness. They are
    modelled as written: a `null` or `0` amount, an empty or missing description, a
    missing date, and for updates a `null` or `0` target id, all stop the call before any
    request. A negative amount passes.
- **The earlier, unrouted screen** (`src/ExpenseList.tsx`) is a second, separate machine
  (`EarlyExpenseList`). Its wiring differs from the routed screen:
  - closing the create dialog keeps the draft;
  - the edit button ignores its id and only raises a flag;
  - the "Update Expense" dialog is bound to the create flag and the create handlers.

  The model proves that the update flag is never observable.

Modules:

- `Wrappers` holds `Option` and `Result`.
- `Decimal` holds `String(n)` for integers of magnitude below 10^21, which includes every year a `Date` can hold, plus digit reading and `split`.
- `DateUtils` holds the date helpers.
- `Expenses` holds the records, form, guard and request bodies both screens share.
- `ExpenseListController` is the routed screen.
- `EarlyExpenseList` is the earlier screen.

The host's `toISOString()` and `new Date(text)` depend on the time zone. They are
parameters of type `IsoSerializer` and `DateParser`. The clock reading `new Date()` is
a `now: Date` argument.

The code has no category or payment-mode ids, no amount-positivity check and no tagged
dialog mode, and the model has none either.

## Model

| member | source | states |
|---|---|---|
| Decimal.NatToDigits | src/utils/dateUtils.ts:3-5 | a non-negative year prints as a non-empty run of decimal digits with no leading zero, except for 0 itself |
| Decimal.IntToDecimal | src/utils/dateUtils.ts:3-5 | `String(year)`: a leading `-` exactly for negative years, followed by the digits of the magnitude |
| Decimal.DigitsRoundTrip | src/utils/dateUtils.ts:3-5 | reading the printed digits back gives the year again |
| Decimal.DigitsLength | src/utils/dateUtils.ts:3-5 | a number prints with exactly k digits iff it lies in [10^(k-1), 10^k), so years 1000..9999 print with four |
| Decimal.IntToDecimalInjective | src/utils/dateUtils.ts:3-5 | two years print the same iff they are equal |
| DateUtils.PadStart | src/utils/dateUtils.ts:3-4 | `padStart(2, '0')` never shortens its input and lengthens it to exactly the target when it is shorter |
| DateUtils.PadStartLayout | src/utils/dateUtils.ts:3-4 | the padded text ends with the original text and everything before it is the fill character |
| DateUtils.TwoDigits | src/utils/dateUtils.ts:3-4 | `String(n).padStart(2, '0')`; it has no contract of its own, and TwoDigitsOf states its value for 0..99 |
| DateUtils.TwoDigitsOf | src/utils/dateUtils.ts:3-4 | every month number 1..12 and day 1..31 pads to exactly two digits that read back as that number |
| DateUtils.FormatLocalDateToIsoDateString | src/utils/dateUtils.ts:1-6 | the text is at least the year's digits plus six characters long; its full layout is stated by FormatShape |
| DateUtils.FormatShape | src/utils/dateUtils.ts:1-6 | the output is, in order, the year's decimal text, `-`, two digits denoting month0 + 1, `-` and two digits denoting the day, with nothing else |
| DateUtils.FormatLengthFourDigitYear | src/utils/dateUtils.ts:2-5 | for a four-digit year the output is exactly ten characters |
| DateUtils.FormatIgnoresTimeOfDay | src/utils/dateUtils.ts:1-6 | dates on the same calendar day format identically, whatever their time of day |
| DateUtils.FormatDeterminesDay | src/utils/dateUtils.ts:2-5 | equal outputs imply equal year, month and day |
| DateUtils.FormatEqualIffSameDay | src/utils/dateUtils.ts:1-6 | two dates format identically iff they fall on the same calendar day |
| DateUtils.SplitDigitFields | src/utils/dateUtils.ts:5 | joining three digit runs with `-` and splitting at `-` gives back the three runs and the numbers they denote |
| DateUtils.FormatSplit | src/utils/dateUtils.ts:2-5 | for a non-negative year, splitting the output at `-` gives exactly three pieces that read back as the year, month0 + 1 and the day; a four-digit year gives a four-character first piece |
| DateUtils.ConstructorYear | src/utils/dateUtils.ts:10 | the constructor reads a year argument in 0..99 as a year of the 1900s with the same last two digits, and any other year as itself |
| DateUtils.MakeLocalDate | src/utils/dateUtils.ts:10 | the three-argument `Date` constructor yields a valid local midnight. It is always in the constructor's year. It is on the given month and day when that day exists, and otherwise on the next month by the excess days. December has 31 days, so the roll-over never leaves the year |
| DateUtils.GetCurrentLocalDate | src/utils/dateUtils.ts:8-11 | the result is a valid local midnight; outside years 0..99 it is on the same calendar day as `now`; inside, it lands in 1900..1999 |
| DateUtils.CurrentLocalDateKeepsDayIff | src/utils/dateUtils.ts:8-11 | the calendar day survives iff the year is outside 0..99 |
| DateUtils.CurrentLocalDateRollsOverOnlyFromYearZeroLeapDay | src/utils/dateUtils.ts:8-11 | stripping the time moves to another month iff `now` is 29 February of year 0, read as the non-existent 29 February 1900; that becomes 1 March 1900 |
| DateUtils.CurrentLocalDateIdempotent | src/utils/dateUtils.ts:8-11 | stripping the time of day twice is the same as stripping it once |
| DateUtils.FormatCurrentLocalDate | src/utils/dateUtils.ts:8-11 | the stripped date formats like `now` itself iff the year is outside 0..99 |
| DateUtils.TwoDigitYearCounterexample | src/utils/dateUtils.ts:10 | a clock reading in year 50 is stripped to 1950-01-01, which formats differently from `now` |
| DateUtils.StartOfLocalDay | src/utils/dateUtils.ts:8-11 | the corrected stripping keeps the calendar day for every year and yields a valid local midnight |
| DateUtils.StartOfLocalDayAgrees | src/utils/dateUtils.ts:8-11 | the function as written and the corrected one agree iff the year is outside 0..99 |
| DateUtils.StartOfLocalDayFormatsAsNow | src/utils/dateUtils.ts:8-11 | the corrected stripping is idempotent and formats exactly like `now` |
| Expenses.ResetForm | src/components/ExpenseList.tsx:93-97 | the reset form has a null amount, an undefined description and `now` as its date, so it never passes the submit guard |
| Expenses.FormGuardPasses | src/components/ExpenseList.tsx:110 | the guard passes iff no field is falsy: the date is not null, the amount is neither null nor 0, and the description is neither undefined nor empty. The earlier screen's guard (src/ExpenseList.tsx:82) is the same |
| Expenses.RequestBody | src/components/ExpenseList.tsx:117-121 | a body exists iff the guard passes and the date serialises; it then carries exactly the serialised date, the amount and the description |
| Expenses.CreateExpenseCall | src/components/ExpenseList.tsx:109-123 | a missing date, a null or 0 amount, or an undefined or empty description fails with no request; otherwise a POST carries exactly the current fields, and only a date that cannot be serialised stops it. The earlier screen's `createExpense` (src/ExpenseList.tsx:81-95) is identical |
| ExpenseListController.Mount | src/components/ExpenseList.tsx:73-177 | the first render has an empty list, both dialogs hidden, no target and a reset form; the mount effect starts exactly one list fetch |
| ExpenseListController.FetchAllExpenses | src/components/ExpenseList.tsx:89-91 | a refresh starts one list GET and changes no state |
| ExpenseListController.OnExpensesFetched | src/components/ExpenseList.tsx:89-91 | a fulfilled fetch replaces the list wholesale with the response; a rejected one changes nothing; nothing else ever changes |
| ExpenseListController.ResetFormFields | src/components/ExpenseList.tsx:93-97 | amount null, description undefined, date `now`, and every other slot unchanged |
| ExpenseListController.OpenCreateExpenseDialogBox | src/components/ExpenseList.tsx:105-107 | only the create flag is raised |
| ExpenseListController.CloseCreateExpenseDialogBox | src/components/ExpenseList.tsx:100-103 | the create flag is cleared and the form reset; nothing else changes |
| ExpenseListController.HandleCreateExpenseSubmit | src/components/ExpenseList.tsx:125-131 | a submit changes no state and starts a POST iff `createExpense` passes its guard and serialisation |
| ExpenseListController.OnCreateSettled | src/components/ExpenseList.tsx:127-130 | only a fulfilled create starts a refresh and closes the create dialog; a rejection changes nothing and starts nothing |
| ExpenseListController.CloseUpdateExpenseDialogBox | src/components/ExpenseList.tsx:134-138 | the update flag is cleared, the target becomes null and the form is reset; nothing else changes |
| ExpenseListController.OpenUpdateExpenseDialogBox | src/components/ExpenseList.tsx:140-143 | the form is reset and the target recorded, the record is fetched, and the dialog is not shown yet |
| ExpenseListController.OnExpenseFetched | src/components/ExpenseList.tsx:143-148 | only a fulfilled fetch copies amount, parsed date and description into the form and shows the update dialog; a rejection leaves the state as it was |
| ExpenseListController.UpdateExpenseCall | src/components/ExpenseList.tsx:151-165 | the create guard plus a null or 0 target id fail with no request; otherwise the PUT goes to exactly the recorded id and carries exactly the current fields |
| ExpenseListController.HandleUpdateExpenseSubmit | src/components/ExpenseList.tsx:167-173 | a submit changes no state and starts a PUT iff `updateExpense` passes its guard and serialisation |
| ExpenseListController.OnUpdateSettled | src/components/ExpenseList.tsx:169-172 | only a fulfilled update starts a refresh and closes the update dialog; a rejection changes nothing |
| ExpenseListController.OpenDeleteConfirmDialog | src/components/ExpenseList.tsx:179-190 | opening the prompt records the row's id and deletes nothing |
| ExpenseListController.OnDeleteAccepted | src/components/ExpenseList.tsx:186-188 | the prompt's accept starts a DELETE for exactly the prompted id and closes the prompt |
| ExpenseListController.OnDeleteSettled | src/components/ExpenseList.tsx:187 | a refresh follows a DELETE iff it completed |
| ExpenseListController.Step | src/components/ExpenseList.tsx:192-281 | each input writes only its own form slot and starts nothing. "Add Expense" opens the create dialog. Each dialog's hide and submit reach that dialog's own close and submit handlers. The row buttons start the update flow and open the prompt, and dismissing the prompt only clears it; ContinuationsDispatch covers accept and the settled promises |
| ExpenseListController.ContinuationsDispatch | src/components/ExpenseList.tsx:89-190 | a settled list fetch, create, record fetch, update or delete reaches its own `.then` continuation, and the prompt's accept reaches the delete |
| ExpenseListController.AtMostOneRequestPerEvent | src/components/ExpenseList.tsx:89-190 | no handler or continuation starts more than one request |
| ExpenseListController.DeleteOnlyFromAccept | src/components/ExpenseList.tsx:179-190 | an event starts a DELETE for an id iff it is the prompt's accept while the prompt shows that id |
| ExpenseListController.PromptOpenedOnlyByOpenDeleteConfirm | src/components/ExpenseList.tsx:179-190 | the prompt starts showing an id only when it is opened for that id |
| ExpenseListController.DeleteOnlyAfterConfirmation | src/components/ExpenseList.tsx:179-190 | in any run of events, a DELETE for an id is preceded by a confirmation prompt for that id |
| ExpenseListController.RefreshOnlyAfterSuccessfulMutation | src/components/ExpenseList.tsx:125-190 | an event starts a list refresh iff it is a fulfilled create, update or delete |
| ExpenseListController.ListReplacedOnlyByFetch | src/components/ExpenseList.tsx:89-91 | the list changes only on a fulfilled fetch, and then it equals the response |
| ExpenseListController.FailedCreateKeepsDraft | src/components/ExpenseList.tsx:125-131 | a submit followed by a rejected create leaves the state unchanged, with the dialog open and the draft intact |
| ExpenseListController.FailedUpdateKeepsDraft | src/components/ExpenseList.tsx:167-173 | a submit followed by a rejected update leaves the state unchanged |
| ExpenseListController.OpenUpdateThenFetch | src/components/ExpenseList.tsx:140-149 | after the edit click and the record fetch, the target is the clicked id. On success the dialog shows the fetched fields; on failure the dialog's visibility is as before and the draft is reset |
| ExpenseListController.UpdateTargetsRecordedId | src/components/ExpenseList.tsx:151-163 | every PUT comes from an update submit, goes to the recorded non-zero target and carries the form's amount and description |
| ExpenseListController.DialogsChangeOnlyAsWired | src/components/ExpenseList.tsx:100-173 | the update dialog appears only on a fulfilled record fetch; each dialog closes only when hidden or after its own fulfilled submit |
| EarlyExpenseList.Mount | src/ExpenseList.tsx:42-117 | the first render has an empty list, both flags down and a reset form; the mount effect starts exactly one list fetch |
| EarlyExpenseList.View | src/ExpenseList.tsx:191-196 | the "Update Expense" dialog is shown exactly when the create flag is up; the update flag is not part of the screen |
| EarlyExpenseList.FetchAllExpenses | src/ExpenseList.tsx:57-59 | a refresh starts one list GET and changes no state |
| EarlyExpenseList.OnExpensesFetched | src/ExpenseList.tsx:57-59 | a fulfilled fetch replaces the list wholesale; a rejected one changes nothing |
| EarlyExpenseList.ResetFormFields | src/ExpenseList.tsx:61-65 | amount null, description undefined, date `now`, and every other slot unchanged |
| EarlyExpenseList.OpenCreateExpenseDialogBox | src/ExpenseList.tsx:77-79 | only the create flag is raised |
| EarlyExpenseList.CloseCreateExpenseDialogBox | src/ExpenseList.tsx:73-75 | only the create flag is cleared; the draft survives |
| EarlyExpenseList.HandleCreateExpenseSubmit | src/ExpenseList.tsx:97-104 | a submit changes no state and starts a POST iff `createExpense` passes its guard and serialisation |
| EarlyExpenseList.OnCreateSettled | src/ExpenseList.tsx:99-103 | a fulfilled create resets the form, starts a refresh and clears the create flag; a rejection changes nothing |
| EarlyExpenseList.CloseUpdateExpenseDialogBox | src/ExpenseList.tsx:107-109 | only the update flag is cleared; no event reaches it |
| EarlyExpenseList.OpenUpdateExpenseDialogBox | src/ExpenseList.tsx:111-113 | only the update flag is raised; the id is not used |
| EarlyExpenseList.OpenDeleteConfirmDialog | src/ExpenseList.tsx:119-130 | opening the prompt records the row's id and deletes nothing |
| EarlyExpenseList.OnDeleteAccepted | src/ExpenseList.tsx:126-128 | the prompt's accept starts a DELETE for exactly the prompted id |
| EarlyExpenseList.OnDeleteSettled | src/ExpenseList.tsx:67-70 | `deleteExpense` refreshes iff the awaited DELETE completed |
| EarlyExpenseList.Step | src/ExpenseList.tsx:132-221 | each input writes only its own form slot. Both dialogs' hide run the create dialog's close, and both submits run the create submit. "Add Expense" opens the create dialog. The edit button only raises the update flag, and the delete button only opens the prompt; ContinuationsDispatch covers accept and the settled promises |
| EarlyExpenseList.ContinuationsDispatch | src/ExpenseList.tsx:57-130 | a settled list fetch, create or delete reaches its own continuation, and the prompt's accept reaches `deleteExpense` |
| EarlyExpenseList.UpdateFormSubmitsCreate | src/ExpenseList.tsx:191-196 | submitting the "Update Expense" form is exactly a create submit and never sends a PUT |
| EarlyExpenseList.UpdateFlagOnlyRises | src/ExpenseList.tsx:107-113 | no event lowers the update flag, and only the edit click raises it |
| EarlyExpenseList.UpdateFlagStaysSet | src/ExpenseList.tsx:107-113 | once raised, the update flag stays up through any run of events |
| EarlyExpenseList.OpenUpdateIgnoresId | src/ExpenseList.tsx:111-113 | edit clicks on different rows lead to the same state |
| EarlyExpenseList.StepIgnoresUpdateFlag | src/ExpenseList.tsx:191-196 | on two states differing only in the update flag, any event starts the same requests and leads to the same screen |
| EarlyExpenseList.UpdateFlagUnobservable | src/ExpenseList.tsx:191-196 | from two states differing only in the update flag, every run of events starts the same requests and ends on the same screen |
| EarlyExpenseList.HideKeepsDraft | src/ExpenseList.tsx:160-196 | hiding either dialog only clears the create flag and leaves the draft and the update flag as they were |
| EarlyExpenseList.RequestsOfAStep | src/ExpenseList.tsx:57-130 | an event starts at most one request and never a PUT or a single-record GET |
| EarlyExpenseList.RequestSources | src/ExpenseList.tsx:97-130 | a DELETE for an id is started iff the prompt's accept fires while the prompt shows that id; a refresh iff a create or delete is fulfilled |
| EarlyExpenseList.PromptOpenedOnlyByOpenDeleteConfirm | src/ExpenseList.tsx:119-130 | the prompt starts showing an id only when it is opened for that id |
| EarlyExpenseList.DeleteOnlyAfterConfirmation | src/ExpenseList.tsx:119-130 | in any run of events, a DELETE for an id is preceded by a confirmation prompt for that id |
| EarlyExpenseList.FailedCreateKeepsDraft | src/ExpenseList.tsx:97-104 | a submit followed by a rejected create leaves the state unchanged |

## Left out

- Decimal.IntToDecimal: prints plain digits for every integer, while JavaScript's `String(n)` switches to exponent form (`1e+21`) from magnitude 10^21 up; every year a `Date` can hold is far below that, so the formatter is unaffected.
- Time zones: `toISOString()` and `new Date(text)` are the parameters `IsoSerializer` and `DateParser`. Their text and their instant depend on the host's zone and are not modelled. A date that `toISOString()` rejects is `None`.
- The JavaScript `Date` range (±8.64e15 ms), `Invalid Date` and `NaN` amounts are not modelled. An amount is a `real`, not an IEEE double.
- DateUtils.GetCurrentLocalDate: a local midnight skipped by a daylight-saving change (the constructor moves it to 01:00) is not modelled. The result is always at midnight.
- DateUtils.MakeLocalDate: the constructor's general overflow is modelled only for a month index in 0..11 and a day in 1..31, which is all a valid date can pass. Then a roll-over crosses at most one month and never the year. From a valid `now` only 0000-02-29, read as 1900-02-29, rolls over at all, to 1900-03-01.
- DateUtils.FormatLocalDateToIsoDateString: its own contract gives only a length bound. The exact layout is the separate lemma `FormatShape`, which keeps the proofs small.
- DateUtils.PadStart: its contract gives the length. The layout of the padded text is the separate lemma `PadStartLayout`.
- DateUtils.FormatSplit: stated for non-negative years only. A negative year's leading `-` adds an empty first piece. `FormatDeterminesDay` covers recovery of the day for every year.
- Network: axios, the hard-coded `http://localhost:8080` URLs and HTTP status handling. A request is a `Request` value, and its outcome arrives as a `Result` event.
- Async timing: settled promises are events that may arrive in any order, and interleavings are not constrained. As in the code, a fulfilled submit closes its dialog at once and only requests the list. The refreshed list replaces the old one at a later `ExpensesFetched` event.
- Markup and widgets: `DataTable`, `Dialog`, `Calendar`, `InputNumber` and the confirmation popup's rendering are left out. The popup is one `deletePrompt` slot, and opening it again replaces the pending id.
- Widget callbacks are events. `AmountChanged` takes `null` because `InputNumber` can clear. `DateChanged` takes `null` because `Calendar` can clear.
- `src/pages/Login.tsx` is not part of this model. It is a credential form over token storage that the project does not show.
- `src/api/api.ts` is not part of this model. It is an axios instance with a header interceptor over configuration that is not shown.
- `src/App.tsx` is not part of this model. It only does routing.

## Findings

| source | as written | input that shows it | evidently intended | confidence | as-written member | corrected member |
|---|---|---|---|---|---|---|
| src/utils/dateUtils.ts:10 | the time is stripped by passing the local year, month and day to the three-argument `Date` constructor, which reads a year in 0..99 as 1900 + year | a clock reading of 0050-01-01 12:00 local time becomes 1950-01-01 | midnight of the same calendar day for every year | low: not executed; a real clock never reads a year before 100 | DateUtils.TwoDigitYearCounterexample | DateUtils.StartOfLocalDay |
