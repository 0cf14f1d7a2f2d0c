# Recurring expenses, modelled in Dafny

This project models the recurring-expense service of an expense tracker,
`services/recurring-expense.service.js`. A recurring expense is a template:
a name, an amount, a type, a frequency (`daily`, `weekly`, `monthly`,
`yearly`), an optional day of the month, a start date, an `active` flag and
a `lastGenerated` cursor. `generateExpensesFromRecurring` walks the
templates. For each active template it picks a first due date, then
catches up to the current date one occurrence at a time. It pushes an
expense for every due date with no recurring expense of that template
recorded, and moves the cursor onto the last date it processed.

The model has five modules:

- `JsDate` (`js_date.dfy`): the part of JavaScript's `Date` the service
  uses, on whole calendar days. A date is a valid (year, month, day). Its
  order is the ECMA-262 day number (`Serial`), proved equal to ECMA-262's
  closed form `DayFromYear`. `setDate`, `setMonth` and `setFullYear` go
  through `MakeDay`, which rolls a month or a day out of range into the
  neighbouring months as ECMA-262 MakeDay does. `new Date(y, m, d)`
  (`NewDate`) first maps a year from 0 to 99 onto 1900 to 1999, as the
  Date constructor of ECMA-262 (section 21.4.2.1) does.
- `DateFormat` (`date_format.dfy`): `formatDate` (`YYYY-MM-DD`), `isSameDay`,
  and a reader of formatted dates back into dates.
- `Recurrence` (`next_occurrence.dfy`): `getNextOccurrenceDate`, with the
  setters' overflow written out.
- `RecurringExpenseService` (`recurring_expense_service.dfy`): the templates
  and expenses as datatypes, and the service loop as imperative methods
  (`GenerateExpensesFromRecurring` and the methods it calls). Each method
  is proved to compute specification functions: `TemplateDates` (the dates
  the catch-up loop processes for one template), `Missing` (their
  renderings with no recorded expense), `NewExpenses` and
  `UpdatedTemplates`.
- `RecurringExpenseProperties` (`recurring_expense_properties.dfy`): what a
  run promises, stated on those functions. New expenses come from due,
  unrecorded dates, and each is generated once. Every processed date ends
  up recorded. Cursors only move forward. A second run on the same day
  does nothing.

`generateId()` is random, so it is a parameter: `idOf(k)` is the id of the
k-th expense pushed in a run.

Four behaviours of the code are proved as written:

- Monthly from the 31st of January reaches the 31st of March.
  `setMonth` overflows February before the day is clamped
  (`Recurrence.MonthEndSkipsFebruary`).
- A template's first monthly run can skip months. With day 5, started on
  10 January and run on 5 April, only 5 April is generated
  (`RecurringExpenseProperties.FirstRunOnDueDay`).
- In the years 0 to 99 the constructor works in 1900 to 1999. The
  first-run override of line 66 then never fires
  (`RecurringExpenseProperties.ThisMonthDateEarlyYears`). Monthly from
  29 January of year 0 stops at 28 February, as February of 1900 is
  28 days long (`Recurrence.YearZeroFebruaryClamped`).
- A frequency the `switch` does not know generates one expense, at the
  anchor date, before the same-day guard stops the loop
  (`RecurringExpenseProperties.UnknownFrequencyOnce`).

## Model

| member | source | states |
|---|---|---|
| `JsDate.DayFromYearClosedForm` | services/recurring-expense.service.js:71 | the day number counted year by year equals ECMA-262's `365·(y−1970) + ⌊(y−1969)/4⌋ − ⌊(y−1901)/100⌋ + ⌊(y−1601)/400⌋`, so the `<`/`<=` on dates compare ECMA time values |
| `JsDate.RollDaysSerial` | services/recurring-expense.service.js:122-132 | rolling an out-of-range day into neighbouring months lands `d − 1` days after the first of the month, whatever `d` is |
| `JsDate.MakeDaySerial` | services/recurring-expense.service.js:122-135 | the date a setter (`setDate`, `setMonth`, `setFullYear`) produces has the day number ECMA-262 MakeDay computes: the first of the normalised month plus `date − 1` |
| `JsDate.NewDateSerial` | services/recurring-expense.service.js:58 | `new Date(y, m, d)` has MakeDay's day number, taken in year 1900 + `y` when `y` is between 0 and 99 |
| `JsDate.SerialOrder` | services/recurring-expense.service.js:71 | comparing dates by time value is calendar order, and two dates have the same day number exactly when they are the same day |
| `JsDate.MonthStep` | services/recurring-expense.service.js:131 | consecutive months start the length of the first apart, across a year end too |
| `DateFormat.NatToStringRoundTrip` | services/recurring-expense.service.js:144-145 | `String(n)` is a non-empty digit string that reads back as `n`, one digit exactly when `n < 10` |
| `DateFormat.PadTwoDigits` | services/recurring-expense.service.js:144-145 | a month or day, padded with `padStart(2, '0')`, is exactly two digits with its value |
| `DateFormat.FormatDateRoundTrip` | services/recurring-expense.service.js:142-147 | `formatDate(d)` reads back as `d`: the stored `lastGenerated` string denotes the date it was made from |
| `DateFormat.SameDayIffSameFormat` | services/recurring-expense.service.js:149-153 | `isSameDay(a, b)` holds exactly when `formatDate(a) == formatDate(b)` |
| `DateFormat.FormatDateInjective` | services/recurring-expense.service.js:142-147 | distinct dates format to distinct strings |
| `Recurrence.DailyAddsOneDay` | services/recurring-expense.service.js:121-123 | `daily` moves exactly one day forward, across month and year ends |
| `Recurrence.WeeklyAddsSevenDays` | services/recurring-expense.service.js:124-126 | `weekly` moves exactly seven days forward |
| `Recurrence.SetMonthReaches` | services/recurring-expense.service.js:129 | `setMonth(getMonth() + 1)` reaches the next month, or the month after it when the next month lacks the day |
| `Recurrence.MonthLength` | services/recurring-expense.service.js:131 | `new Date(y, m + 1, 0).getDate()` is the length of month `m`, of year 1900 + `y` for the years 0 to 99 |
| `Recurrence.ConstructorMonthLength` | services/recurring-expense.service.js:131 | that length never exceeds the real month's, and differs from it exactly for February of year 0 |
| `Recurrence.MonthlyReachedMonth` | services/recurring-expense.service.js:127-133 | `monthly` gives the target day (`dayOfMonth`, else the date's own day), clamped to the length the constructor reports for the month `setMonth` reached |
| `Recurrence.YearZeroFebruaryClamped` | services/recurring-expense.service.js:127-133 | from 29 January of year 0, `monthly` lands on 28 February, the length of February 1900 |
| `Recurrence.MonthEndSkipsFebruary` | services/recurring-expense.service.js:127-133 | from a day of January that February lacks, `monthly` lands on that day of March |
| `Recurrence.YearlyNextYear` | services/recurring-expense.service.js:134-136 | `yearly` keeps month and day in the next year; 29 February becomes 1 March |
| `Recurrence.AdvanceIsLater` | services/recurring-expense.service.js:117-140 | every known frequency moves strictly forward; an unknown one returns the same date |
| `RecurringExpenseService.OccurrencesStart` | services/recurring-expense.service.js:71 | the catch-up loop processes nothing exactly when its first date is after `currentDate`, and otherwise starts with that date |
| `RecurringExpenseService.OccurrencesWithin` | services/recurring-expense.service.js:71-107 | every processed date lies between the first date and `currentDate` |
| `RecurringExpenseService.OccurrencesLast` | services/recurring-expense.service.js:103-106 | the loop stops because the advance of its last date is after `currentDate` or is the same day |
| `RecurringExpenseService.OccurrencesChain` | services/recurring-expense.service.js:102-103 | each processed date is the advance of the one before |
| `RecurringExpenseService.OccurrencesIncreasing` | services/recurring-expense.service.js:71-107 | the processed dates strictly increase |
| `RecurringExpenseService.MissingSpec` | services/recurring-expense.service.js:76-98 | a rendering is pushed exactly when it belongs to a processed date and no recurring expense of the template has it, and there are at most as many as dates |
| `RecurringExpenseService.MissingDistinct` | services/recurring-expense.service.js:73-98 | distinct processed dates give distinct pushed renderings |
| `RecurringExpenseService.PushStep` | services/recurring-expense.service.js:76-98 | one turn adds an expense for its date exactly when none is recorded, with the next id |
| `RecurringExpenseService.SnapshotIgnoresCursor` | services/recurring-expense.service.js:85-101 | moving the cursor changes neither the template's id nor the expense built from it |
| `RecurringExpenseService.FirstNextDate` | services/recurring-expense.service.js:22-68 | the anchor with its adjustments, its advance and the first-run override compute `FirstCandidate` |
| `RecurringExpenseService.CatchUpTurn` | services/recurring-expense.service.js:73-106 | one turn pushes the expense for its date unless recorded, puts the cursor on that date and returns its advance |
| `RecurringExpenseService.CatchUp` | services/recurring-expense.service.js:71-107 | the catch-up loop pushes the missing expenses for `Occurrences` and leaves the cursor on the last of them |
| `RecurringExpenseService.ProcessTemplate` | services/recurring-expense.service.js:18-107 | one template's callback: nothing for an inactive one, otherwise the expenses and cursor of `TemplateDates` |
| `RecurringExpenseService.GenerateExpensesFromRecurring` | services/recurring-expense.service.js:14-114 | the returned expenses are `NewExpenses` and the returned templates `UpdatedTemplates` |
| `RecurringExpenseProperties.TemplateDatesWithin` | services/recurring-expense.service.js:19-71 | only an active template has processed dates, and none is after `currentDate` |
| `RecurringExpenseProperties.TemplateDatesDistinct` | services/recurring-expense.service.js:71-107 | a template never processes one date twice in a run |
| `RecurringExpenseProperties.AnchorBounds` | services/recurring-expense.service.js:22-47 | a cursor is the anchor; otherwise the anchor is not before the start date, and is the start date or not after `currentDate` |
| `RecurringExpenseProperties.AdjustedNotBeforeStart` | services/recurring-expense.service.js:32-37 | the start month's `dayOfMonth`, moved a month on when before the start date, is not before the start date |
| `RecurringExpenseProperties.SetDateSerial` | services/recurring-expense.service.js:32 | `setDate(dayOfMonth)` lies `dayOfMonth − 1` days after the first of the date's month |
| `RecurringExpenseProperties.ThisMonthDateSerial` | services/recurring-expense.service.js:58 | `thisMonthDate` lies `dayOfMonth − 1` days after the first of `currentDate`'s month, in year 1900 + year for the years 0 to 99 |
| `RecurringExpenseProperties.ThisMonthDateInMonth` | services/recurring-expense.service.js:58-61 | when the constructor's month has that day, `thisMonthDate` is it (in year 1900 + year for the years 0 to 99) and passes the same-month test |
| `RecurringExpenseProperties.ThisMonthDateEarlyYears` | services/recurring-expense.service.js:58-63 | for a `currentDate` in the years 0 to 99, `thisMonthDate` is after `currentDate`, so the `<= currentDate` test fails |
| `RecurringExpenseProperties.FirstRunOverride` | services/recurring-expense.service.js:52-68 | the first date of a first monthly run is this month's day exactly when `currentDate` is not in the years 0 to 99, that day is not after `currentDate` and is after the start date; otherwise it is the anchor's advance |
| `RecurringExpenseProperties.FirstRunOnDueDay` | services/recurring-expense.service.js:52-107 | a first monthly run on its day of the month after the start date processes only that day, except in the years 0 to 99, where the run starts from the anchor's advance |
| `RecurringExpenseProperties.UnknownFrequencyOnce` | services/recurring-expense.service.js:100-106 | an unknown frequency processes the anchor alone when it is due, else nothing |
| `RecurringExpenseProperties.AnchorNotProcessed` | services/recurring-expense.service.js:49-50 | outside the first-run override, with a known frequency, every processed date is after the anchor |
| `RecurringExpenseProperties.FirstRunNotBeforeStart` | services/recurring-expense.service.js:25-68 | a template without `lastGenerated` processes no date before its start date |
| `RecurringExpenseProperties.CursorMoves` | services/recurring-expense.service.js:100-103 | the updated template differs only in its cursor, which is on the last processed date, not after `currentDate`, not before the start date when it was unset, not behind the old cursor and, with a known frequency, strictly ahead of it |
| `RecurringExpenseProperties.ResumeFromCursor` | services/recurring-expense.service.js:44-50 | a template with a cursor continues from the advance of the cursor |
| `RecurringExpenseProperties.OccurrencesResume` | services/recurring-expense.service.js:100-106 | re-entered with the advance of its last date, the loop processes nothing, or that date again when the advance stays on it |
| `RecurringExpenseProperties.ResumeAfterLast` | services/recurring-expense.service.js:44-106 | with the cursor on its last processed date, a template processes nothing more that day, or only that date again under an unknown frequency |
| `RecurringExpenseProperties.MissingFrom` | services/recurring-expense.service.js:76-97 | every pushed rendering belongs to a processed date of an active template, is not after `currentDate` and had no recorded expense |
| `RecurringExpenseProperties.NewExpenseFrom` | services/recurring-expense.service.js:83-97 | each new expense copies name, description (the name when empty), amount, type and payment type of an active template, with `isRecurring` set, the template's id, a due and unrecorded date, and the k-th id |
| `RecurringExpenseProperties.NewExpensesNotRecorded` | services/recurring-expense.service.js:76-83 | no new expense repeats the template id and date of a recorded recurring expense |
| `RecurringExpenseProperties.ProcessedDatesRecorded` | services/recurring-expense.service.js:73-98 | after a run every processed date of every template is recorded, by an existing expense or a new one |
| `RecurringExpenseProperties.NewExpensesDistinct` | services/recurring-expense.service.js:73-98 | with distinct template ids, no two new expenses share a template id and a date |
| `RecurringExpenseProperties.UpdatedTemplatesShape` | services/recurring-expense.service.js:16-19 | the updated list keeps length and order, changes only cursors, and leaves inactive templates alone |
| `RecurringExpenseProperties.SecondRunTemplate` | services/recurring-expense.service.js:44-106 | run again the same day with its dates recorded, a template pushes nothing and keeps its cursor |
| `RecurringExpenseProperties.SecondRun` | services/recurring-expense.service.js:14-114 | a second run over the updated templates, with the processed dates recorded, collects nothing and moves no cursor |
| `RecurringExpenseProperties.RunIsIdempotent` | services/recurring-expense.service.js:14-114 | a run repeated the same day on its own output produces no expense and leaves the templates unchanged |

## Left out

- Time of day and time zones: a date is a whole local calendar day.
  `new Date("YYYY-MM-DD")` reads a date-only string as UTC midnight, which
  the local getters can report as the day before. That shift is not
  modelled: the model reads a stored date back as the same day.
- The `Date` range limits of ECMA-262 (about ±275,760 years) and invalid
  dates: every year is allowed, and strings that do not parse are not
  modelled.
- FormatDateRoundTrip: the reader it proves `formatDate` against stands
  for `new Date(s)` (lines 27, 35, 41, 46) only for the years 1000 to 9999.
  Outside them the rendering is not an ECMA-262 date-time string, and what
  `new Date(s)` makes of it is up to the implementation. The model reads a
  stored date back as the same day in every year.
- `lastGenerated` is stored as a `formatDate` string. It is modelled as the
  date it renders (`Option<Date>`), as `DateFormat.FormatDateRoundTrip`
  justifies. An empty string counts as absent, like any other falsy value.
- A falsy `dayOfMonth` (absent, 0, `null`) is modelled as 0.
  Non-integer values are not modelled.
- `GenerateExpensesFromRecurring`, `ProcessTemplate`, `CatchUp`: require a
  monthly template's `dayOfMonth` to be absent or positive. With a negative
  one, `setDate` moves the date backwards, and the loop need not end.
- The deep copy `JSON.parse(JSON.stringify(...))` (line 16): templates are
  values here, so the copy has no observable effect and nothing is aliased.
- `generateId()` (lines 155-157) draws random characters. It is replaced by
  the parameter `idOf`. Whether the random ids are unique is not modelled.
- The default arguments (`existingExpenses = []`,
  `currentDate = new Date()`): the model takes both as parameters, so
  reading the clock is not modelled.
- `amount` is an integer here. The service copies it unchanged, so
  floating point plays no part.
- The logger import and `api/user/user.controller.js` are not part of this
  model.
