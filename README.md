# Household finance planner: verified model of the core

The application is a local-first household budgeting tool. Bills and incomes
recur on schedules. Debts are ranked for payoff. Bank statements are imported
from CSV files. Australian tax deductions are checked against a few rules.
This project models the pure core of that tool in Dafny and proves what the
code promises:

- `recurrence.dfy` models `src/lib/recurrence.ts`. It expands a recurring
  schedule into dated occurrences inside a horizon (a `while` loop over a
  date cursor). It also defines the "missed" test.
- `calendar.dfy` holds the civil-date arithmetic that loop relies on:
  - `setUTCDate` and `setUTCMonth`, including the month-end rollover;
  - the weekday;
  - the `YYYY-MM-DD` text form and its ordering.
- `parser.dfy` models `src/lib/expenses/parser.ts`:
  - CSV splitting;
  - header-to-field mapping inference;
  - amount and date cleaning;
  - row normalisation with the deduplication key;
  - classification by category rules (a loop with `break`, proved against a
    specification function).
- `import_page.dfy` models the pure steps of the import page
  (`app/expenses-import/page.tsx`):
  - the "mapping wizard" gate;
  - the 50-row preview;
  - the save-time merge through a `Map` keyed by the deduplication key;
  - the rule learned from a row.
- `dates.dfy` models `src/lib/date.ts`: the month-name table and the display
  and bank-statement date conversions.
- `payoff.dfy` models `src/lib/payoff.ts`:
  - the avalanche and snowball orders;
  - the month-by-month payoff projection, a `while` loop proved against a
    recursive simulation.
- `tax_year.dfy`, `gst.dfy`, `tax.dfy` and `validation.dfy` model
  `src/lib/ato/`:
  - the financial-year label;
  - GST;
  - bracketed resident income tax and the Medicare levy;
  - deduction validation with its ordered checks.
- `calendar_month.dfy` models the month grid of `components/CalendarMonth.tsx`
  (leading blanks, then one cell per day with the entries of that day) and its
  three-marker rule.
- `sorting.dfy` is a stable descending insertion sort. It stands for
  `Array.prototype.sort` with a numeric comparator, which is stable. It is
  proved sorted, a permutation, and order-preserving among equal keys.
- `strings.dfy`, `numbers.dfy` and `wrappers.dfy` are shared helpers:
  - trimming, lower-casing, splitting and joining, and digit strings;
  - the abstraction of JavaScript `Number(...)` and number-to-text;
  - `Option`.

JavaScript numbers are exact reals here. A value that may be `NaN` is a
`Num` (`NaN | Fin(r)`). An optional property is an `Option`. Dates are civil
`(year, month, day)` values; comparing two `Date` objects is comparing their
day numbers (`DaysFromEpoch`).

Some behaviour of the code is easy to misread, and the model keeps it as
written:

- Monthly and yearly stepping roll an overflowing day into the next month,
  as `setUTCMonth` does: 31 January plus one month is 2 March in 2024 and
  3 March in 2023, and the next step from there is 2 April. It does not
  clamp to the month's last day (`Calendar.MonthEndRollover`).
- The cursor always starts at the schedule's own start date. A resume date
  only moves the horizon and filters out earlier occurrences
  (`Recurrence.ResumeIsFilter`); it is not where the walk starts.
- `frequencyToDays` returns 30 for monthly and 365 for yearly, but the loop
  never uses those values. Those frequencies step by calendar months.
- Header detection is case-insensitive, but the detected names are then used
  to look up records keyed by the original header text. See "## Findings".

## Model

| member | source | states |
|---|---|---|
| Calendar.AddDays | src/lib/recurrence.ts:7-11 | the result is a valid date exactly `n` days after the input |
| Calendar.AddMonths | src/lib/recurrence.ts:13-17 | the same day `k` months on when that month has it, otherwise rolled into the following month by the excess days; the day number is the target month's first day plus `day - 1` |
| Calendar.AddMonthsAdvances | src/lib/recurrence.ts:13-17 | adding one or more months moves strictly later |
| Calendar.AddMonthsKeepsDay | src/lib/recurrence.ts:13-17 | a day of month up to 28 is kept by any month shift |
| Calendar.AddMonthsSameYear | src/lib/recurrence.ts:13-17 | within one year, adding `k` months to a day up to 28 changes only the month |
| Calendar.MonthEndRollover | src/lib/recurrence.ts:13-17 | 31 Jan 2024 + 1 month is 2 Mar 2024; 31 Jan 2023 + 1 month is 3 Mar 2023; one more month from 2 Mar 2024 gives 2 Apr 2024 (the drift) |
| Calendar.DaysInMonth | components/CalendarMonth.tsx:26-28 | month lengths are 28 to 31 days, February having 29 exactly in leap years |
| Calendar.EpochWeekdays | components/CalendarMonth.tsx:27 | 1 Jan 1970 is day 0 and a Thursday (4); 1 Jan 2024 is a Monday (1) |
| Calendar.WeekdayPeriodic | components/CalendarMonth.tsx:27 | whole weeks later falls on the same weekday |
| Calendar.DayNumberOrder | src/lib/recurrence.ts:41 | calendar order and equality of valid dates are the order and equality of their day numbers |
| Calendar.ParseIso | src/lib/recurrence.ts:36-39 | a parsed date is valid, comes from a `YYYY-MM-DD` text and has a four-digit year |
| Calendar.IsoDay | src/lib/recurrence.ts:5 | the ISO day text is ten characters: four year digits, two month digits and two day digits, separated by dashes |
| Calendar.IsoRoundTrip | src/lib/recurrence.ts:5 | parsing the ISO text of a date gives the date back |
| Calendar.IsoCanonical | src/lib/recurrence.ts:5 | every accepted ISO text is the canonical text of the date it denotes |
| Calendar.IsoOrder | src/lib/recurrence.ts:76 | comparing ISO texts as strings is comparing the dates' day numbers (both directions) |
| Recurrence.FortnightIsTwoWeeks | src/lib/recurrence.ts:19-32 | a fortnightly step is a weekly step of twice the interval; both are whole weeks |
| Recurrence.EndLimitOf | src/lib/recurrence.ts:41 | a present, parseable end date becomes a valid inclusive limit |
| Recurrence.Step | src/lib/recurrence.ts:65-69 | every cursor step gives a valid, strictly later date |
| Recurrence.Walk | src/lib/recurrence.ts:55-70 | the dates the loop emits from a cursor: each in-range position not before the resume date, then the walk from the next step; properties in `WalkBounded`, `WalkAscending`, `WalkSteps` and `ResumeIsFilter` |
| Recurrence.OccurrenceDates | src/lib/recurrence.ts:34-64 | the dates of `generateOccurrences`: none for an unparseable start or resume date, the start date alone for a one-off schedule in range, otherwise the walk from the start date; properties in `OnceAtMostOne`, `OccurrencesInWindow`, `EndBeforeStart` and `InvalidDatesYieldNothing` |
| Recurrence.LoopEnds | src/lib/recurrence.ts:55-70 | the loop ends for a one-off schedule, a positive interval, or a start date already out of range |
| Recurrence.EmitSteps | src/lib/recurrence.ts:55-70 | the loop emits exactly the occurrences of the walk from the start cursor to the boundary, resume-filtered |
| Recurrence.GenerateOccurrences | src/lib/recurrence.ts:34-73 | one occurrence per date of the schedule's date list, in order: id or -1, the date's ISO text, the planned amount, status scheduled |
| Recurrence.OnceAtMostOne | src/lib/recurrence.ts:43-53 | a one-off schedule gives at most one occurrence, on its start date, exactly when that date is within the horizon and the end date |
| Recurrence.EndBeforeStart | src/lib/recurrence.ts:41-55 | an end date before the start date gives no occurrences |
| Recurrence.InvalidDatesYieldNothing | src/lib/recurrence.ts:36-41 | an unparseable start, resume or end date gives no occurrences |
| Recurrence.OccurrencesInWindow | src/lib/recurrence.ts:36-64 | occurrences ascend strictly, are within horizon and end date, and are not before a given resume date |
| Recurrence.WalkBounded | src/lib/recurrence.ts:55-70 | every walked date is in range, not before the first cursor, and not before the resume date |
| Recurrence.WalkAscending | src/lib/recurrence.ts:55-70 | walked dates strictly ascend |
| Recurrence.WalkSteps | src/lib/recurrence.ts:55-70 | the walk starts at the cursor exactly when it is in range, and each date is the step of the one before |
| Recurrence.WeeklyGaps | src/lib/recurrence.ts:19-24 | weekly and fortnightly occurrences keep the first weekday and are exactly 7 or 14 times the interval days apart |
| Recurrence.MonthlyKeepsDay | src/lib/recurrence.ts:65-66 | monthly and yearly occurrences keep a start day up to 28 |
| Recurrence.MonthlyExample | src/lib/recurrence.ts:55-70 | a monthly schedule from day `d` of January with a three-month horizon gives the 4 dates January to April, day `d` |
| Recurrence.ResumeIsFilter | src/lib/recurrence.ts:57 | walking with a resume date is the plain walk filtered to dates on or after it |
| Recurrence.OnOrAfter | src/lib/recurrence.ts:57 | the resume filter keeps exactly the dates on or after the resume date |
| Recurrence.DayStepCount | src/lib/recurrence.ts:55-69 | with no end date a weekly or fortnightly walk has `gap / step + 1` dates (`gap` days to the boundary), or none when the start is past it |
| Recurrence.IsMissed | src/lib/recurrence.ts:75-77 | still scheduled and dated before today as ISO strings; `MissedMeansEarlier` states it in dates |
| Recurrence.MissedMeansEarlier | src/lib/recurrence.ts:75-77 | an occurrence is missed exactly when its date is before today's |
| Dates.MonthNumber | src/lib/date.ts:1-26 | a name maps to 1..12 exactly when it is in the month table, otherwise 0 |
| Dates.SeptemberNames | src/lib/date.ts:17-19 | "sep", "sept" and "september" all map to 9 |
| Dates.ValidIso | src/lib/date.ts:30 | the `YYYY-MM-DD` shape naming a real day; `IsoCanonical` and `IsoRoundTrip` give its properties |
| Dates.ToDisplay | src/lib/date.ts:32-36 | a valid ISO date becomes day-month-year with dashes; anything else is returned unchanged |
| Dates.ToIsoFromDisplay | src/lib/date.ts:38-44 | the result is empty or a valid ISO date, and is empty when there are not three pieces |
| Dates.DisplayRoundTrip | src/lib/date.ts:32-44 | converting a valid ISO date to display form and back gives it back |
| Dates.DisplayPadding | src/lib/date.ts:38-44 | an unpadded day, month and year with `-` or `/` separators give the date's ISO text |
| Dates.ToIso | src/lib/date.ts:46-57 | the result is empty or a valid ISO date; fewer than two tokens, a falsy day or an unknown month give empty |
| Dates.ToIsoReads | src/lib/date.ts:46-57 | "day monthname" gives the ISO text of that day in the current year when it exists, else empty |
| TaxYear.GetTaxYear | src/lib/ato/helpers.ts:1-5 | the label of the date's tax year; `TaxYearOfDay` and `TaxYearIgnoresDay` give its properties |
| TaxYear.LabelOfYear | src/lib/ato/helpers.ts:4 | the label is the start year, a dash, and the last two digits of the next year |
| TaxYear.StartOf | src/lib/ato/helpers.ts:2-3 | the tax year starts in the date's year from July, otherwise in the year before |
| TaxYear.TaxYearOfDay | src/lib/ato/helpers.ts:1-5 | every day from 1 July of year `s` up to 30 June of `s+1` is labelled `s-(s+1 mod 100)` |
| TaxYear.TaxYearIgnoresDay | src/lib/ato/helpers.ts:2-4 | the label depends on year and month only |
| Gst.ComputeGst | src/lib/ato/gst.ts:7-11 | untaxed entries carry no GST; GST is between 0 and a non-negative amount; GST-exclusive GST is a tenth of the amount |
| Gst.InclusiveIsTenthOfNet | src/lib/ato/gst.ts:9 | GST-inclusive GST is a tenth of the net amount, the same as the exclusive GST of the net |
| Gst.GstLinear | src/lib/ato/gst.ts:7-11 | GST scales linearly with the amount |
| Tax.TaxFrom | src/lib/ato/tax.ts:12-21 | the bracket-table tax, specifying the loop of `IncomeTax`; `TaxInFirstBracket` and `TaxAboveAll` give its cases |
| Tax.ResidentTax | src/lib/ato/tax.ts:4-21 | the resident tax; `ResidentSchedule`, `ResidentContinuous` and `ResidentMonotone` give its properties |
| Tax.IncomeTax | src/lib/ato/tax.ts:12-21 | the loop returns the bracket-table tax of the income |
| Tax.TaxInFirstBracket | src/lib/ato/tax.ts:13-18 | the tax is the base plus the rate on the excess over the previous limit, for the first bracket whose limit covers the income |
| Tax.TaxAboveAll | src/lib/ato/tax.ts:20 | an income above every limit is taxed 0 |
| Tax.ResidentSchedule | src/lib/ato/tax.ts:4-10 | the resident table gives 0 to 18,200, 19% to 45,000, 5,092 + 32.5% to 120,000, 29,467 + 37% to 180,000, then 51,667 + 45% |
| Tax.ResidentContinuous | src/lib/ato/tax.ts:4-10 | each base equals the tax at the bracket's lower limit |
| Tax.ResidentMonotone | src/lib/ato/tax.ts:4-21 | more income never means less resident tax |
| Tax.MedicareLevy | src/lib/ato/tax.ts:23-25 | the levy is 2% of taxable income, between 0 and the income when it is non-negative |
| Validation.Validate | src/lib/ato/validation.ts:19-55 | the validation result; `ValidateInOrder` and `AcceptedIffNoRuleFails` give its properties |
| Validation.FirstFailure | src/lib/ato/validation.ts:19-55 | no message exactly when no check fails; a message is the message of a failing check |
| Validation.OrderChain | src/lib/ato/validation.ts:19-55 | the checks are tried in source order: date, amount, work use, phone, kilometres, cap, method |
| Validation.ValidateInOrder | src/lib/ato/validation.ts:19-55 | validation returns the message of the first failing check of that order |
| Validation.AcceptedIffNoRuleFails | src/lib/ato/validation.ts:19-55 | a deduction is accepted exactly when no check fails |
| Validation.PhoneRule | src/lib/ato/validation.ts:25-31 | an IT phone/internet claim is blocked exactly when an IT fixed-rate working-from-home claim exists in the same tax year, and accepted otherwise |
| Validation.CapRule | src/lib/ato/validation.ts:36-47 | a cents-per-km claim is refused exactly when the year's kilometres plus its own exceed 5000; 5000 exactly passes |
| Validation.KmThisYearIgnores | src/lib/ato/validation.ts:38-46 | deductions of another method or tax year do not change the kilometres counted |
| Validation.OtherMethodPasses | src/lib/ato/validation.ts:48-49 | a rideshare car expense with any other non-empty method is accepted |
| Sorting.SortDesc | src/lib/payoff.ts:12-15 | the sort result is a permutation of the input, with descending keys |
| Sorting.SortStable | src/lib/expenses/parser.ts:105 | items with equal keys keep their input order |
| Sorting.SortSorted | src/lib/payoff.ts:53-55 | sorting an already sorted list leaves it unchanged |
| Payoff.SortDebts | src/lib/payoff.ts:10-20 | the recommendation; `SortDebtsKeepsActive`, `SortDebtsOrder`, `SortDebtsStable` and `SortDebtsNote` give its properties |
| Payoff.SortDebtsKeepsActive | src/lib/payoff.ts:10-15 | the recommendation holds exactly the active debts, each as often as in the input |
| Payoff.SortDebtsOrder | src/lib/payoff.ts:12-15 | avalanche lists rates (missing = 0) high to low; snowball lists balances low to high |
| Payoff.SortDebtsStable | src/lib/payoff.ts:12-15 | debts with the same rate (or balance) keep their input order |
| Payoff.SortDebtsNote | src/lib/payoff.ts:16-19 | the note depends only on the strategy, and the two strategies' notes differ |
| Payoff.Pay | src/lib/payoff.ts:43-50 | one debt's month; it changes only the balance |
| Payoff.MonthPay | src/lib/payoff.ts:42-51 | one month of payments, one debt each; `ExtraOnlyOnHead` gives what the extra payment does |
| Payoff.ExtraOnlyOnHead | src/lib/payoff.ts:42-51 | compared with the same month without extra, every debt but the first ends the same; an owing first debt ends at its no-extra balance minus the extra, floored at 0; a settled debt is untouched; a non-negative extra never raises a balance |
| Payoff.Step | src/lib/payoff.ts:41-55 | one month of payments then the re-sort; `CloseMonth` is the method it specifies |
| Payoff.Simulate | src/lib/payoff.ts:40-56 | the month-by-month simulation; `SimulateBounds` and `SimulateStops` give its properties |
| Payoff.ProjectionOf | src/lib/payoff.ts:23-59 | the projection; `ProjectionBounds`, `ProjectionKeepsDebts`, `ProjectionNonNegative` and `ProjectionSorted` give its properties |
| Payoff.PayMonth | src/lib/payoff.ts:42-51 | the `for` loop applies that month's payment to every debt |
| Payoff.CloseMonth | src/lib/payoff.ts:41-55 | a month is the payments followed by re-sorting in the strategy's order |
| Payoff.PayDown | src/lib/payoff.ts:40-56 | the `while` loop ends in the state of the month-by-month simulation |
| Payoff.ProjectPayoff | src/lib/payoff.ts:23-59 | the projection is the simulation of the sorted active debts, or 0 months when minimums plus extra are not positive |
| Payoff.SimulateBounds | src/lib/payoff.ts:40 | the simulation never runs past 360 months |
| Payoff.SimulateStops | src/lib/payoff.ts:40 | a simulation that stops before 360 months has paid every debt off |
| Payoff.ProjectionBounds | src/lib/payoff.ts:33-40 | the months are between 0 and 360; no payment capacity means 0 months and the sorted debts; otherwise stopping early means every balance is paid |
| Payoff.ProjectionKeepsDebts | src/lib/payoff.ts:29-31 | the projection holds the same active debts, as a permutation, apart from balances |
| Payoff.ProjectionNonNegative | src/lib/payoff.ts:47-49 | balances never go below 0 when they start non-negative |
| Payoff.ProjectionSorted | src/lib/payoff.ts:52-55 | the projected debts are in the strategy's order |
| Parser.ParseCsv | src/lib/expenses/parser.ts:46-58 | headers and records of a CSV text; `ParseCsvShape` and `ParseRender` give its properties |
| Parser.SplitLines | src/lib/expenses/parser.ts:47 | one line per `\n`-separated piece, a trailing `\r` dropped |
| Parser.NonBlank | src/lib/expenses/parser.ts:47 | exactly the lines that are not blank after trimming are kept |
| Parser.Record | src/lib/expenses/parser.ts:52-55 | a record has exactly the header names as keys |
| Parser.RecordLast | src/lib/expenses/parser.ts:53-55 | a header gets its column's trimmed cell, or "" when the column is missing; the last of equal headers wins |
| Parser.BuildRecord | src/lib/expenses/parser.ts:51-56 | the `forEach` builds the record of the line's cells |
| Parser.HeaderNames | src/lib/expenses/parser.ts:49 | headers are the trimmed comma-separated pieces of the first line |
| Parser.Rows | src/lib/expenses/parser.ts:50-57 | one record per later line, in order |
| Parser.ParseCsvShape | src/lib/expenses/parser.ts:46-58 | no headers exactly when there is no non-blank line; one row per non-blank line after the header; every row keyed by the headers |
| Parser.ParseRender | src/lib/expenses/parser.ts:46-58 | parsing a rendered table with distinct, clean headers and cells gives back its headers and every cell |
| Parser.CleanHeader | src/lib/expenses/parser.ts:19 | the trimmed, lower-cased header; `CleanHeaderIdempotent` gives its property |
| Parser.HeadersSignature | src/lib/expenses/parser.ts:21-22 | the digest of the cleaned headers joined by `\|`; `SignatureIgnoresCaseAndSpace` and `SignatureTextInjective` give its properties |
| Parser.CleanHeaderIdempotent | src/lib/expenses/parser.ts:19 | cleaning a header twice is cleaning it once |
| Parser.SignatureIgnoresCaseAndSpace | src/lib/expenses/parser.ts:21-22 | headers equal up to case and surrounding space have the same signature |
| Parser.SignatureTextInjective | src/lib/expenses/parser.ts:21-22 | different cleaned header lists without `\|` give different hashed texts |
| Parser.FindIndex | src/lib/expenses/parser.ts:26-27 | the first header matching any candidate term, no earlier one matching |
| Parser.FindSpec | src/lib/expenses/parser.ts:24-34 | a guess is empty exactly when no cleaned header contains a term; otherwise the first such cleaned header |
| Parser.DetectMapping | src/lib/expenses/parser.ts:24-44 | the guessed mapping, overridden by a parsed saved one; `FindSpec` and `DetectMappingSpec` give its properties |
| Parser.DetectMappingSpec | src/lib/expenses/parser.ts:35-43 | fields of a parsed saved mapping override the guesses; an absent or unparseable one leaves the guesses |
| Parser.ValueDateMatchesBoth | src/lib/expenses/parser.ts:13-15 | a "value date" header matches both a date term and the amount term "value" |
| Parser.ValueDateTakenAsAmount | src/lib/expenses/parser.ts:24-34 | a leading "value date" header is guessed as both the date and the amount column |
| Parser.CleanAmount | src/lib/expenses/parser.ts:61-69 | a missing or empty value is 0; only a parenthesised value can give `NaN`; a plain numeric value is its number; a plain non-numeric value is 0 |
| Parser.ParenthesesNegate | src/lib/expenses/parser.ts:63-66 | a parenthesised value is the negation of the number inside, currency and separators removed |
| Parser.PlainNumber | src/lib/expenses/parser.ts:61-69 | a plain number reads as itself, with or without a leading `$` |
| Parser.CleanAmountInt | src/lib/expenses/parser.ts:61-69 | an integer's text, with or without `$`, reads back as that integer |
| Parser.CleanAmountParenthesisedInt | src/lib/expenses/parser.ts:63-66 | a parenthesised whole number reads as its negation |
| Parser.NormalizeDate | src/lib/expenses/parser.ts:71-81 | a missing value is ""; a four-digit first piece keeps the first ten characters; anything else not in three pieces is kept |
| Parser.NormalizeDayFirst | src/lib/expenses/parser.ts:75-79 | day, month and year are reordered and padded, a two-digit year getting "20" |
| Parser.DayFirstToIso | src/lib/expenses/parser.ts:71-81 | `DD/MM/YYYY` and `DD-MM-YYYY` give the date's ISO text |
| Parser.NormalizeIso | src/lib/expenses/parser.ts:74 | an ISO date is kept as is |
| Parser.NormalizeRow | src/lib/expenses/parser.ts:84-99 | date, description and amount from the mapped columns; credit minus debit without an amount column; credit exactly when non-negative; the key joins date, amount, description and source |
| Parser.NormalizeRows | src/lib/expenses/parser.ts:83-102 | one transaction per record, in order |
| Parser.DedupeKeyParts | src/lib/expenses/parser.ts:98 | the key splits back into date, amount text, description and source |
| Parser.DedupeKeyInjective | src/lib/expenses/parser.ts:98 | without `\|` in the texts, equal keys mean equal date, amount text, description and source |
| Parser.HeaderCaseLostRow | src/lib/expenses/parser.ts:85-90 | when no header is already clean, the unfixed mapping finds no column of the row: empty date and description, amount 0, credit |
| Parser.HeaderCaseLost | src/lib/expenses/parser.ts:24-34 | so a parsed CSV with such headers (for example `Date,Description,Amount`) normalises every row to empty values |
| Parser.GuessesFixed | src/lib/expenses/parser.ts:24-34 | the corrected guesses cover the five fields |
| Parser.DetectMappingFixed | src/lib/expenses/parser.ts:24-43 | every guessed field is empty or one of the headers as parsed |
| Parser.FixedGuessesAgree | src/lib/expenses/parser.ts:24-34 | the corrected guess finds a column exactly when the original does, the same one up to case; both agree when headers are already clean |
| Parser.MappedAgree | src/lib/expenses/parser.ts:24-34 | the correction changes no field's "is mapped" status |
| Parser.FixedFindsColumns | src/lib/expenses/parser.ts:85-90 | with the corrected mapping every mapped field reads its column of each parsed row |
| Parser.NormalizeRendered | src/lib/expenses/parser.ts:46-102 | a well-formed table written as CSV, parsed and normalised under a mapping naming its columns as parsed gives each row back its ISO date, its description and its integer amount |
| Parser.FixedColumn | src/lib/expenses/parser.ts:24-34 | the corrected guess for a field is the first header whose cleaned text matches one of its terms, as parsed, and is non-empty |
| Parser.NormalizeRenderedFixed | src/lib/expenses/parser.ts:24-102 | with the corrected guess the same round trip holds for any header case, given that the date, description and amount columns are the first headers matching their terms |
| Parser.EnabledRules | src/lib/expenses/parser.ts:105 | exactly the rules not disabled are kept |
| Parser.Ranked | src/lib/expenses/parser.ts:105 | the ranked rules are a permutation of the enabled ones, by descending priority (missing = 0) |
| Parser.RankedMembers | src/lib/expenses/parser.ts:105 | a rule is ranked exactly when it is enabled |
| Parser.HitIndex | src/lib/expenses/parser.ts:112-127 | the first matching rule, none before it matching |
| Parser.Classify | src/lib/expenses/parser.ts:106-137 | only the labels change; all are set; confidence is 0.2, 0.75 or 0.9; "uber" forces the uber profile and "zip" the zip category, each with confidence at least 0.75 |
| Parser.Categorise | src/lib/expenses/parser.ts:107-136 | the loop with `break` computes the classification |
| Parser.ClassifyAll | src/lib/expenses/parser.ts:106 | each transaction is classified independently, in order |
| Parser.ApplyRules | src/lib/expenses/parser.ts:104-138 | the result classifies each transaction against the enabled rules ranked by priority |
| Parser.WinnerHasTopPriority | src/lib/expenses/parser.ts:105-127 | some rule wins exactly when an enabled rule matches; the winner matches and no matching enabled rule has higher priority |
| Parser.WinnerFirstAmongEqual | src/lib/expenses/parser.ts:105-125 | among matching rules of the winner's priority the winner comes first in input order |
| Parser.NoHitKeepsLabels | src/lib/expenses/parser.ts:107-111 | without a match or override the defaults stay: existing or "uncategorised", existing or "personal", 0.2, no matched rule |
| Parser.WinnerLabels | src/lib/expenses/parser.ts:105-126 | when an enabled rule matches and no override applies, the labels come from an enabled matching rule of top priority: its category, its profile or the existing one, its pattern, and 0.9 from priority 90 up, else 0.75 |
| ImportPage.NeedsMappingWizard | app/expenses-import/page.tsx:54 | the wizard test on the mapping; `WizardGate` gives what skipping it guarantees |
| ImportPage.WizardGate | app/expenses-import/page.tsx:54-57 | with the wizard skipped, date and description are mapped, and the signed amount of every record comes from the mapped amount column or from mapped credit minus mapped debit; date and description read their columns when present |
| ImportPage.WizardUnaffectedByFix | app/expenses-import/page.tsx:52-55 | the header-case correction does not change the wizard decision |
| ImportPage.NoDateColumnNeedsWizard | app/expenses-import/page.tsx:52-55 | without a date-like header the wizard is shown |
| ImportPage.Preview | app/expenses-import/page.tsx:59 | the preview is the first 50 rows, or all when fewer |
| ImportPage.GatePreview | app/expenses-import/page.tsx:54-62 | the wizard flag follows the mapping; with the wizard the preview is empty, otherwise it is the first 50 normalised and classified rows |
| ImportPage.OnFile | app/expenses-import/page.tsx:46-63 | the same, with the mapping `detectMapping` guesses from the parsed headers as written |
| ImportPage.OnFileFixed | app/expenses-import/page.tsx:46-63 | the same with the corrected guess: the wizard decision is the one `OnFile` makes |
| ImportPage.RowKeys | app/expenses-import/page.tsx:95 | each row's merge key is its deduplication key, or the key rebuilt from its fields |
| ImportPage.Dedup | app/expenses-import/page.tsx:93-96 | the merged keys are distinct and exactly the keys stored |
| ImportPage.DedupKeys | app/expenses-import/page.tsx:93-96 | a key is kept exactly when some row has it |
| ImportPage.DedupLatest | app/expenses-import/page.tsx:94-96 | each kept key holds the last row with that key |
| ImportPage.DedupOrder | app/expenses-import/page.tsx:93-97 | kept keys are in the order of their first appearance |
| ImportPage.FillUnique | app/expenses-import/page.tsx:93-96 | the `forEach` builds exactly that merge |
| ImportPage.Finalize | app/expenses-import/page.tsx:97-103 | a saved row gets the batch and source, its profile or "personal", its category or "uncategorised", and is otherwise unchanged |
| ImportPage.FinalRows | app/expenses-import/page.tsx:97-103 | one saved row per distinct key |
| ImportPage.SaveBatch | app/expenses-import/page.tsx:86-113 | no rows gives "No rows to save."; otherwise the merged, finalised rows and a batch record counting them |
| ImportPage.SavedRowIsLast | app/expenses-import/page.tsx:93-103 | each saved row is the finalised last input row with its key |
| ImportPage.SavedKeysDistinct | app/expenses-import/page.tsx:93-97 | no two saved rows share a key |
| ImportPage.SavedKeysCover | app/expenses-import/page.tsx:93-97 | every input row's key is saved |
| ImportPage.SavedOrder | app/expenses-import/page.tsx:93-97 | saved rows are in the order their keys first appear |
| ImportPage.LearnedRule | app/expenses-import/page.tsx:256-264 | a learned rule is an enabled "contains" rule of priority 100 whose pattern is the first 30 characters of the description (all of it when shorter), with the row's category or "uncategorised" and the row's profile |
| ImportPage.LearnedRuleHits | app/expenses-import/page.tsx:256-264 | the learned rule matches its own row's description |
| ImportPage.LearnedRuleApplies | app/expenses-import/page.tsx:256-264 | reclassifying the row with the learned rule gives confidence 0.9 and, barring a stronger rule or "zip", the row's category |
| Calendar.Weekday | components/CalendarMonth.tsx:27 | the weekday 0 to 6, Sunday first; `EpochWeekdays` and `WeekdayPeriodic` give its properties |
| CalendarMonth.EntriesOnCounts | components/CalendarMonth.tsx:33 | a day's entries are exactly the entries with that date, each as often as in the input |
| CalendarMonth.EntriesOnConcat | components/CalendarMonth.tsx:33 | filtering distributes over concatenation |
| CalendarMonth.Cells | components/CalendarMonth.tsx:24-37 | the grid has one blank per weekday before the 1st, then one cell per day |
| CalendarMonth.MonthCells | components/CalendarMonth.tsx:29-36 | the two `for` loops build that grid |
| CalendarMonth.LastDayOfMonth | components/CalendarMonth.tsx:26-28 | "day 0 of next month" is a valid last day, one day before the next month's first |
| CalendarMonth.CellAt | components/CalendarMonth.tsx:29-35 | cell `k` is blank before the start weekday, then the cell of day `k - start + 1` |
| CalendarMonth.CellsBlank | components/CalendarMonth.tsx:30 | the leading cells carry no date |
| CalendarMonth.CellsDays | components/CalendarMonth.tsx:31-34 | day `d` sits at position start + d - 1 with its ISO date |
| CalendarMonth.CellsOrdered | components/CalendarMonth.tsx:31-34 | day cells' dates ascend as strings |
| CalendarMonth.InDayCell | components/CalendarMonth.tsx:33 | an entry is in a day's cell exactly when its date is that day |
| CalendarMonth.EntryPlacement | components/CalendarMonth.tsx:29-35 | an entry appears in a cell exactly when the cell is its day's |
| CalendarMonth.Markers | components/CalendarMonth.tsx:68-76 | at most three markers, one for each of the first entries |
| CalendarMonth.Overflow | components/CalendarMonth.tsx:77-79 | the "+n" badge appears exactly when there are more than three entries |
| CalendarMonth.MarkersAccountForAll | components/CalendarMonth.tsx:68-79 | markers plus the badge's count equal the entries, the badge counting at least 1 |

## Left out

- Persistence (the IndexedDB tables), React state, rendering, file reading and the service worker are not modelled. The page steps take and return values instead.
- `headersSignature` takes the md5 digest as a function parameter. The hash itself is not modelled.
- `JSON.parse` of a saved mapping is an already-parsed value: absent, unparseable, or a field map.
- `Number(...)` is abstracted as a decimal-number reader, and number-to-text as plain decimal text. Exponent forms, `Infinity`, hexadecimal and other accepted forms are not modelled.
- Floating-point rounding is not modelled: amounts, tax, GST and balances are exact reals.
- `Date` parsing accepts only `YYYY-MM-DD` with years 0 to 9999 and a real day of the month. Other formats and the engine's leniency are not modelled.
- Dates.ToIso: the current year comes from the clock in the source. It is a parameter here.
- ImportPage.SaveBatch: the batch identifier (`uuidv4`) and the timestamp are parameters. The totals status message is not modelled.
- Recurrence.GenerateOccurrences: requires `LoopEnds`. For a repeating schedule whose start date is in range, an interval of 0 leaves the cursor in place and the source loop never ends, and a negative interval walks the cursor backward until the date leaves the representable range and the comparisons with `NaN` end the loop; the model excludes both. With the start out of range the model, like the source, gives no occurrences.
- Recurrence.Schedule: the interval is an integer. The source's interval is any `number`, and `setUTCDate`/`setUTCMonth` truncate a fractional sum, so a weekly interval of 0.1 never ends and 1.5 steps 10 days; fractional intervals are not modelled.
- Payoff.ProjectPayoff: the default strategy "avalanche" is not modelled; the strategy is a required parameter.
- Recurrence.GenerateOccurrences: the default horizon of 12 months is not modelled; `monthsAhead` is a required parameter.
- Strings.Lower: lower-cases ASCII letters only and works on characters, not UTF-16 code units. `toLowerCase` on other letters (accented capitals, the final sigma) is not modelled, so the rule matching in `Parser.Classify` and header cleaning agree with the source only on ASCII text.
- ImportPage.LearnedRule: the 30-character cut is taken on characters; `slice(0, 30)` counts UTF-16 code units, which differs for text outside the basic plane. `LearnedRuleHits` and `LearnedRuleApplies` hold under the modelled lower-casing, so on non-ASCII descriptions they are not claims about the source.
- Payoff.PayDown: the source updates copied debt objects and sorts the array in place. The model works on sequence values, so aliasing and in-place order are not captured.
- Payoff.SortDebts: `active !== false` is modelled as a boolean, with an absent flag read as active.
- Validation.Validate: `NaN` amounts, percentages and kilometres are not modelled, because amounts are reals.
- The "reparse" handler of the import page (`app/expenses-import/page.tsx:75-84`) has no member of its own. It runs the same parse, normalise, classify and preview steps as `ImportPage.OnFile` with the mapping edited by hand and without the wizard gate, on the file text the page keeps in a global.
- Other pages, backups, the deduction rule tables and the analytics views are not modelled.

## Findings

| source | as written | input that shows it | evidently intended | confidence | as-written member | corrected member |
|---|---|---|---|---|---|---|
| src/lib/expenses/parser.ts:25 | `detectMapping` returns lower-cased header names, but `parseCsv` keys each record by the header as written, so `r[mapping.date]` finds nothing whenever a header has capitals or spaces | a CSV whose header line is `Date,Description,Amount` and a row `03/01/2024,Coffee,-4.50`: the transaction gets date "", description "", amount 0, direction credit | the mapping names the header as parsed, so each mapped field reads its column; `Parser.NormalizeRenderedFixed` proves the CSV round trip with it, `ImportPage.OnFileFixed` is the import step using it, while `ImportPage.OnFile` keeps the written guess | not executed | Parser.HeaderCaseLost | Parser.DetectMappingFixed |
