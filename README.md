# LiftingERM core, modelled in Dafny

LiftingERM is a small staffing back office. It tracks employees, the sites
(work places) they are dispatched to on given dates, clients, and sales.
This project models the parts of it that compute something:

- **Payroll unit-pay engine** (`POST /api/payroll/calculate`). The request
  guards come first. A resolver turns a site's pay condition (`normal`,
  `half`, `6000`, `5000`, `3000`, empty or anything else) and the
  employee's unit pay into the pay for one assignment. A loop then sums
  those pays over the employee's site dates in an inclusive date range.
  Finally the handler builds per-assignment detail rows and the response
  record. The loop and the detail list each carry their own copy of the
  resolver. The central theorem is that the base salary always equals the
  sum of the detail rows.
- **Client sales statistics** (`GET /api/sales/client-stats`). The caller
  and client guards come first. The client's total is the aggregate sum,
  defaulting to 0. The loop then builds twelve monthly buckets, oldest
  first, ending with the current month.
- **Date pickers and calendar.** This is the 42-cell month grid copied
  into three components, plus previous/next month with year rollover. It
  also covers the multi-date toggle list, the single-date selection with
  its start time, and the site calendar's per-day site filter.
- **Employee picker.** It selects and removes employees without duplicate
  ids and suggests employees by name.
- **Tables.** The employee table's age and "X–Y of N" page range, the site
  table's month filter options, its staff-name chips, and the rules that
  enable the pagination buttons.
- **Form validators.** These are the zod schemas for employees, sites,
  clients and sales: required strings, the postal-code and blood-pressure
  patterns, blood-pressure normalisation, numeric lower bounds, and the
  year-only age rule.

Dates are (year, month, day) triples, and "today" or "the current month"
is always a parameter. Database tables are input sequences. HTTP errors
are a `Result` whose failure has a status code. Parsing date strings, case
folding, URL and e-mail checks are function parameters.

Modules, one per file:

| module | file |
|---|---|
| `Wrappers` | `Option` and `Result` |
| `Text` | JavaScript string helpers: number rendering, `parseInt`, `padStart`, `trim`, `split`, `join`, `includes`, string order |
| `Calendar` | months, days, month arithmetic, keys, the month grid |
| `Payroll` | the payroll route |
| `ClientStats` | the client-stats route |
| `DateSelector` | `components/ui/date-selector.tsx` |
| `DateTimeSelector` | `components/ui/date-time-selector.tsx` |
| `EmployeeSelect` | `components/ui/employee-select.tsx` |
| `SiteCalendar` | `components/ui/site-calendar.tsx` |
| `EmployeeList` | `components/tables/EmployeeList.tsx` |
| `SiteList` | `components/tables/SiteList.tsx` |
| `Pattern` | the anchored regular expressions of the validators |
| `EmployeeSchema` | `lib/validations/employee.ts` |
| `SiteSchema` | `lib/validations/site.ts` |
| `ClientSchema` | `lib/validations/client.ts` |
| `SalesSchema` | `lib/validations/sales.ts` |

## Model

| member | source | states |
|---|---|---|
| Payroll.FindEmployee | app/api/payroll/calculate/route.ts:16-24 | a found employee has the requested id and comes from the table; when none is found, no employee in the table has that id |
| Payroll.ConditionLabel | app/api/payroll/calculate/route.ts:84-87 | the label the switch sees is never empty: the site's own label, or "normal" when it is null or empty |
| Payroll.ResolvePay | app/api/payroll/calculate/route.ts:88-106 | the resolver is total, and its pay is non-negative whenever the unit pay is |
| Payroll.HalfIsFloor | app/api/payroll/calculate/route.ts:92-94 | "half" pays floor(unitPay / 2): twice the pay is at most the unit pay and within 1 of it, for odd and negative amounts too |
| Payroll.FixedLabelsPayTheirAmount | app/api/payroll/calculate/route.ts:95-103 | "6000", "5000" and "3000" pay the amount they spell, whatever the unit pay |
| Payroll.UnrecognisedLabelPaysNormal | app/api/payroll/calculate/route.ts:84-90 | a null, empty or unrecognised label pays exactly the unit pay, as "normal" does |
| Payroll.AssignedSiteDates | app/api/payroll/calculate/route.ts:41-52 | a site date is fetched iff it lies in the range, both ends included, and has an assignment row for the employee |
| Payroll.AssignmentDetails | app/api/payroll/calculate/route.ts:115-146 | one detail per site date, in fetch order; each row carries the site date's date and site name, the label reported verbatim (or "normal"), and the resolved pay for that label |
| Payroll.AssignmentDetailsExtend | app/api/payroll/calculate/route.ts:115-146 | the detail list of one more site date is the old list with that date's row appended |
| Payroll.TotalPayAppend | app/api/payroll/calculate/route.ts:107 | adding a row to the detail list adds its pay to the total |
| Payroll.TotalPayNonNegative | app/api/payroll/calculate/route.ts:81-108 | with a non-negative unit pay, the summed pay is non-negative |
| Payroll.AccumulateSalary | app/api/payroll/calculate/route.ts:81-108 | the salary loop, with its own copy of the switch, returns exactly the sum of the pays in the detail list built from the same site dates |
| Payroll.Calculate | app/api/payroll/calculate/route.ts:6-161 | a missing employeeId, startDate or endDate gives 400 before anything else; an unknown employee gives 404; a null or zero unit pay gives 400; a date that cannot be compared gives 500; otherwise the report is built from the fetched site dates, and its base salary equals the sum of its detail rows |
| Payroll.ReportIsConsistent | app/api/payroll/calculate/route.ts:78-159 | totalAssignments equals the number of site dates and of detail rows; baseSalary is the rows' sum; overtime hours and pay are 0; totalSalary equals baseSalary; a null hourlyOvertimePay becomes 0; row i comes from site date i |
| Payroll.EmptyRangeReport | app/api/payroll/calculate/route.ts:41-112 | with no assigned site date in the range, the report has no rows, no assignments and zero pay |
| Payroll.NothingAssignedInRange | app/api/payroll/calculate/route.ts:41-75 | with no assigned site date in the range, the fetch returns nothing |
| ClientStats.FindUser | app/api/sales/client-stats/route.ts:15-17 | a found user has the caller's clerk id; when none is found, no user has it |
| ClientStats.FindClient | app/api/sales/client-stats/route.ts:38-43 | a found client has the requested id and was registered by the caller; when none is found, no such client exists |
| ClientStats.ClientSales | app/api/sales/client-stats/route.ts:53-57 | a sale counts toward the total iff it belongs to this user and this client |
| ClientStats.TotalAmountIsSum | app/api/sales/client-stats/route.ts:53-61 | `_sum.amount \|\| 0` is the sum of the client's sale amounts, with a null amount counting 0 |
| ClientStats.NoSalesTotalZero | app/api/sales/client-stats/route.ts:130 | with no sale for the client, totalAmount is 0 |
| ClientStats.NoClientSales | app/api/sales/client-stats/route.ts:53-57 | with no sale for the client, the client's sale list is empty |
| ClientStats.RecentClientSales | app/api/sales/client-stats/route.ts:64-75 | a sale is fetched for the monthly data iff it is the client's and dated on or after the cut-off day |
| ClientStats.SalesInMonth | app/api/sales/client-stats/route.ts:104-110 | a sale falls in a month's bucket iff its year and month are that month's |
| ClientStats.BucketsUpTo | app/api/sales/client-stats/route.ts:94-123 | n loop rounds produce exactly n entries |
| ClientStats.MonthlyData | app/api/sales/client-stats/route.ts:94-123 | the loop over i = 11..0 produces exactly the twelve entries of the bucket specification |
| ClientStats.BucketsUpToAt | app/api/sales/client-stats/route.ts:95-122 | entry j is the entry of the month j - 11 months from the current one |
| ClientStats.BucketsShape | app/api/sales/client-stats/route.ts:94-123 | twelve entries, oldest first; entry j is the month current - (11 - j), with a 1-based month; the last entry is the current month; consecutive entries are consecutive months, rolling December over to January; each amount is the month's sale total, and each label is `${year}年${month}月` |
| ClientStats.MonthTotalIsWindow | app/api/sales/client-stats/route.ts:104-115 | a month's reduced total is the sum over the sales dated in that month |
| ClientStats.WindowSplit | app/api/sales/client-stats/route.ts:104-115 | the sum over a span of months is the sum over its two halves |
| ClientStats.SumEntriesAppend | app/api/sales/client-stats/route.ts:117-122 | pushing an entry adds its amount to the entries' total |
| ClientStats.SumEntriesOfBuckets | app/api/sales/client-stats/route.ts:94-123 | the amounts of the first n entries add up to the sales of those n months taken one by one |
| ClientStats.LastBucketSum | app/api/sales/client-stats/route.ts:117-122 | the total of n entries is the total of n - 1 entries plus the amount of the last |
| ClientStats.LastBucketIsWindow | app/api/sales/client-stats/route.ts:95-115 | the amount of entry n - 1 is the sum over the sales of that month |
| ClientStats.MonthByMonthIsWindow | app/api/sales/client-stats/route.ts:104-115 | adding n months one at a time gives the sum over the whole n-month span |
| ClientStats.BucketsSum | app/api/sales/client-stats/route.ts:94-123 | the twelve amounts together are the sum of the sales dated in the twelve months ending with the current one |
| ClientStats.EmptyWindow | app/api/sales/client-stats/route.ts:112-115 | an empty span of months sums to 0 |
| ClientStats.WindowAtMostTotal | app/api/sales/client-stats/route.ts:104-115 | with non-negative amounts, a span of months sums to at most the total, and exactly the total when every sale falls inside the span |
| ClientStats.FromFirstOfMonth | app/api/sales/client-stats/route.ts:68-74 | a sale on or after the first day of a month is in that month or later |
| ClientStats.BucketsAccountForFetchedSales | app/api/sales/client-stats/route.ts:64-115 | with non-negative amounts, the twelve buckets sum to at most the fetched sales' total, and exactly to it when no fetched sale is dated after the current month |
| ClientStats.GetClientStats | app/api/sales/client-stats/route.ts:9-132 | no caller gives 401; an unknown user gives 404; a missing clientId gives 400; a client this user did not register gives 404; otherwise the client summary, totalAmount as the sum of the client's sales, and monthlyData as the buckets of the sales from the first day eleven months back |
| Calendar.MonthAt | components/ui/date-selector.tsx:76-86 | the month at index k has month index k, so month arithmetic lands on a real (year, month) |
| Calendar.MonthIndexInjective | components/ui/date-selector.tsx:76-86 | two months have the same index iff they are the same month |
| Calendar.AddMonths | app/api/sales/client-stats/route.ts:95-99 | `new Date(y, m + n, 1)` lies exactly n months from (y, m), rolling the year over |
| Calendar.PreviousMonthRollsOver | components/ui/date-selector.tsx:76-80 | the previous month of January is December of the year before; otherwise it is the same year, one month back (the same code is in date-time-selector.tsx:78-82 and site-calendar.tsx:134-138) |
| Calendar.NextMonthRollsOver | components/ui/date-selector.tsx:82-86 | the next month of December is January of the year after; otherwise it is the same year, one month on (the same code is in date-time-selector.tsx:83-87 and site-calendar.tsx:140-144) |
| Calendar.NavigationRoundTrip | components/ui/date-selector.tsx:76-86 | the previous and next buttons undo each other |
| Calendar.MonthKeyInjective | components/tables/SiteList.tsx:186-189 | two months have the same `${year}-${MM}` key iff they are the same month |
| Calendar.SeparatedParts | components/tables/SiteList.tsx:186-189 | a key `x-p` equals `y-q` with p and q of one length only when both parts agree |
| Calendar.MonthLength | components/ui/date-selector.tsx:28-29 | `new Date(year, month + 1, 0).getDate()` is between 28 and 31 |
| Calendar.MakeDate | components/ui/date-selector.tsx:34-47 | `new Date(year, month, d)` for an out-of-range d rolls over to a real date |
| Calendar.DayKeyInjective | components/ui/site-calendar.tsx:86-120 | on real dates, two days have the same `${year}-${MM}-${DD}` key iff they are the same day |
| Calendar.DaysInMonth | components/ui/date-selector.tsx:24-51 | `getDaysInMonth` produces 42 cells, cell i being the grid's cell i (the same code is in date-time-selector.tsx:40-62 and site-calendar.tsx:54-81) |
| Calendar.GridShape | components/ui/date-selector.tsx:24-51 | cell i < startingDay is day (length of previous month) − startingDay + 1 + i of the previous month, so the previous month's last days ascend; then days 1..daysInMonth, and exactly these cells are marked current-month; then at least 5 cells of the next month, numbered 1, 2, … |
| Calendar.GridCellsAreDates | components/ui/date-time-selector.tsx:40-62 | every cell is a real date, and it is marked current-month iff it lies in the shown month |
| Calendar.GridConsecutive | components/ui/site-calendar.tsx:54-81 | consecutive cells hold consecutive days, across both month boundaries |
| DateSelector.RemoveDay | components/ui/date-selector.tsx:63 | the filter keeps exactly the entries not on the given day |
| DateSelector.HandleDateClick | components/ui/date-selector.tsx:55-68 | a disabled click changes nothing; otherwise the clicked day's selection flips; clicking a selected day gives exactly the filter that drops every entry on that day and keeps the others in order, so the list shrinks; an unselected day is appended at the end, so the length grows by exactly one |
| DateSelector.SelectedDayRemoved | components/ui/date-selector.tsx:58-63 | removing a selected day leaves it unselected and shortens the list |
| DateSelector.ShorterWhenPresent | components/ui/date-selector.tsx:63 | removing a day present in the list shortens it |
| DateSelector.HandleRemoveDate | components/ui/date-selector.tsx:70-74 | no entry on the removed date's day is left, and every other entry is kept |
| DateSelector.RemoveDayAppend | components/ui/date-selector.tsx:70-74 | removal works part by part, so the kept entries keep their order |
| DateSelector.RemoveDayNoop | components/ui/date-selector.tsx:70-74 | removing a day nobody chose changes nothing |
| DateSelector.RemoveDaySingle | components/ui/date-selector.tsx:63 | a single entry is kept iff it is not on the removed day |
| DateSelector.RemoveDayKeepsDistinct | components/ui/date-selector.tsx:58-63 | removal keeps a list free of two entries on one day |
| DateSelector.ClickKeepsDistinct | components/ui/date-selector.tsx:55-68 | a list with no two entries on one day keeps that property through any click |
| DateSelector.ClickTwiceRestores | components/ui/date-selector.tsx:58-67 | clicking an unselected day twice restores the original list |
| DateTimeSelector.HandleDateClick | components/ui/date-time-selector.tsx:65-76 | a disabled click changes nothing; otherwise the employee list is emptied and the clicked day's selection flips; clicking the selected day clears the date and the start time; clicking any other day selects it with start time "08:30" |
| DateTimeSelector.AtMostOneSelectedDay | components/ui/date-time-selector.tsx:91-93 | every date reported as selected is on one day, the selected one; with no selection nothing is selected |
| DateTimeSelector.ClickTwice | components/ui/date-time-selector.tsx:65-76 | clicking an unselected day twice clears the selection; clicking the selected day twice reselects it at "08:30" |
| DateTimeSelector.ClickMovesSelection | components/ui/date-time-selector.tsx:72-75 | a click on one day leaves every other day unselected |
| EmployeeSelect.ToSelected | components/ui/employee-select.tsx:92-97 | the appended entry copies exactly id, name, unitPay and hourlyOvertimePay |
| EmployeeSelect.SelectEmployee | components/ui/employee-select.tsx:90-99 | an already selected id leaves the list unchanged; otherwise the employee is appended; the id is selected afterwards; distinct ids stay distinct |
| EmployeeSelect.RemoveEmployee | components/ui/employee-select.tsx:104-106 | the filter keeps exactly the entries with another id |
| EmployeeSelect.RemoveEmployeeDropsId | components/ui/employee-select.tsx:104-106 | after removal the id is no longer selected |
| EmployeeSelect.RemoveEmployeeAppend | components/ui/employee-select.tsx:105 | removal works part by part, so the kept entries keep their order |
| EmployeeSelect.RemoveAbsentEmployee | components/ui/employee-select.tsx:105 | removing an id nobody has changes nothing |
| EmployeeSelect.SelectThenRemove | components/ui/employee-select.tsx:90-106 | selecting a new employee and then removing them restores the list |
| EmployeeSelect.RemoveEmployeeKeepsDistinct | components/ui/employee-select.tsx:104-106 | removal keeps the selected ids distinct |
| EmployeeSelect.FilterSuggestible | components/ui/employee-select.tsx:67-72 | an employee is kept iff its case-folded name contains the case-folded term and its id is not selected, and the result is no longer than the input |
| EmployeeSelect.Suggestions | components/ui/employee-select.tsx:61-73 | a blank or whitespace-only term gives no suggestions; otherwise exactly the matching, unselected employees, and never more entries than employees |
| EmployeeSelect.SuggestionsAppend | components/ui/employee-select.tsx:67-72 | suggestions work part by part, so they keep the employees' original order |
| EmployeeSelect.SuggestionsSingle | components/ui/employee-select.tsx:67-72 | for a non-blank term, one employee is suggested exactly once if it matches and is unselected, else not at all; with SuggestionsAppend, each matching employee appears once, in order |
| EmployeeSelect.PickingSuggestionAppends | components/ui/employee-select.tsx:90-99 | picking any suggestion appends exactly that employee |
| EmployeeSelect.Picker.constructor | components/ui/employee-select.tsx:35-58 | the picker starts with the fetched employees and selection, an empty term, a closed list and no suggestions, and is valid when the given selection has distinct ids |
| EmployeeSelect.Picker.RefreshSuggestions | components/ui/employee-select.tsx:61-73 | the filter effect sets the suggestions from the employees, the term and the selection, and changes nothing else |
| EmployeeSelect.Picker.HandleSelectEmployee | components/ui/employee-select.tsx:90-102 | the selection becomes SelectEmployee of the old one and stays free of duplicates; the term is cleared and the list closed |
| EmployeeSelect.Picker.HandleRemoveEmployee | components/ui/employee-select.tsx:104-106 | the selection becomes RemoveEmployee of the old one and stays free of duplicates; nothing else changes |
| EmployeeSelect.Picker.HandleInputChange | components/ui/employee-select.tsx:108-111 | the typed text becomes the term and the list opens |
| EmployeeSelect.Picker.HandleInputFocus | components/ui/employee-select.tsx:113-115 | focus opens the list and changes nothing else |
| SiteCalendar.OnDayIsKeyEquality | components/ui/site-calendar.tsx:86-120 | on real dates, comparing days is comparing their `YYYY-MM-DD` keys, as the source does |
| SiteCalendar.DatesOn | components/ui/site-calendar.tsx:107-119 | a site date is kept iff it is on the target day |
| SiteCalendar.SitesForDate | components/ui/site-calendar.tsx:86-120 | a site is listed iff it has a site date on the target day, cut down to that day's dates |
| SiteCalendar.ListedSitesWorkThatDay | components/ui/site-calendar.tsx:94-119 | every listed site has a non-empty list of site dates, all on the target day, and all its other fields unchanged |
| SiteCalendar.SitesForDateAppend | components/ui/site-calendar.tsx:94-106 | the listing works part by part, so sites keep their original order |
| SiteCalendar.DatesOnAppend | components/ui/site-calendar.tsx:107-119 | the kept site dates keep their order |
| SiteCalendar.HasSitesOnDateIff | components/ui/site-calendar.tsx:123-125 | a day is marked iff some site has a site date on it |
| SiteCalendar.SiteCalendarView.constructor | components/ui/site-calendar.tsx:44-50 | the view starts with the given sites, selection and month, and an empty listing |
| SiteCalendar.SiteCalendarView.SyncSelectedDate | components/ui/site-calendar.tsx:163-170 | after the effect the listing is empty without a selected date and equals that day's sites with one |
| SiteCalendar.SiteCalendarView.HandleDateClick | components/ui/site-calendar.tsx:128-132 | a click lists that day's sites and, when selection is allowed, selects the day |
| SiteCalendar.SiteCalendarView.GoToPreviousMonth | components/ui/site-calendar.tsx:134-138 | the shown month moves back exactly one month, with year rollover; nothing else changes |
| SiteCalendar.SiteCalendarView.GoToNextMonth | components/ui/site-calendar.tsx:140-144 | the shown month moves on exactly one month, with year rollover; nothing else changes |
| SiteCalendar.SiteCalendarView.Days | components/ui/site-calendar.tsx:54-81 | the shown grid has 42 cells, cell i being the grid's cell i of the shown month |
| EmployeeList.CalculateAge | components/tables/EmployeeList.tsx:122-136 | the age is the year difference, or one less exactly when today's month and day come before the birth month and day |
| EmployeeList.AgeCountsBirthdays | components/tables/EmployeeList.tsx:122-136 | the age is the number of birthdays reached: the age-th has come and the next has not |
| EmployeeList.AgeIsUnique | components/tables/EmployeeList.tsx:122-136 | only one number of years fits between two consecutive birthdays around today |
| EmployeeList.AnniversariesAscend | components/tables/EmployeeList.tsx:128-133 | a later birthday that has come means every earlier one has come too |
| EmployeeList.AgeOnBirthday | components/tables/EmployeeList.tsx:128-133 | on the n-th birthday the age is exactly n |
| EmployeeList.AgeNonNegative | components/tables/EmployeeList.tsx:122-136 | born no later than today means an age of at least 0 |
| EmployeeList.AgeMonotone | components/tables/EmployeeList.tsx:122-136 | the age never goes down as today advances |
| EmployeeList.RangeBounds | components/tables/EmployeeList.tsx:339-343 | the last row shown is at most the total, the range spans at most one page, and the first row is at least 1 |
| EmployeeList.RangeNonEmpty | components/tables/EmployeeList.tsx:339-343 | on an existing page of a non-empty list the range is non-empty |
| EmployeeList.ButtonsStayInRange | components/tables/EmployeeList.tsx:325-351 | from an existing page, an enabled button leads to an existing page, and when the bar shows, at least one button is enabled |
| SiteList.InitialSelectedMonth | components/tables/SiteList.tsx:50-56 | the initial month is the rendered year exactly, a `-`, then the 1-based month as two zero-padded digits that read back as the month |
| SiteList.OptionMonthOf | components/tables/SiteList.tsx:180-193 | the option for (year, month) is at position 12 · (year − (currentYear − 1)) + month − 1 |
| SiteList.OptionsUpTo | components/tables/SiteList.tsx:180-193 | the first n options number exactly n |
| SiteList.OptionsUpToSnoc | components/tables/SiteList.tsx:180-193 | one more option is the next month's option appended |
| SiteList.MonthOptions | components/tables/SiteList.tsx:174-193 | the nested year and month loops push exactly the 36 options of the specification |
| SiteList.OptionsStep | components/tables/SiteList.tsx:185-191 | one pass of the inner loop appends the option for that year and month |
| SiteList.OptionsSpanThreeYears | components/tables/SiteList.tsx:179-193 | the options run from January of last year to December of next year, one month apart, and the initial month is one of them |
| SiteList.FourDigitYearString | components/tables/SiteList.tsx:186-189 | a four-digit year renders as four digits that read back as the year |
| SiteList.MonthKeyOrder | components/tables/SiteList.tsx:186-189 | for four-digit years, the string order of month keys is the chronological order |
| SiteList.LexLessIrreflexive | components/tables/SiteList.tsx:186-189 | no key is less than itself |
| SiteList.OptionValuesAscend | components/tables/SiteList.tsx:180-193 | for four-digit years around the current one, option values are distinct and strictly ascending in string order |
| SiteList.EmployeeNameChips | components/tables/SiteList.tsx:255-266 | no chips for a missing or empty name list; otherwise at least one chip, none holding a comma |
| SiteList.TrimIsInfix | components/tables/SiteList.tsx:264 | trimming only takes characters away from the ends |
| SiteList.ChipsInvertFormJoin | components/forms/SiteForm.tsx:137-139 | the chips of a `", "`-joined list of trimmed, comma-free names are exactly those names |
| SiteList.JoinLength | components/forms/SiteForm.tsx:137-139 | joining two or more names gives a string of at least two characters |
| SiteList.SameButtonsAsEmployeeList | components/tables/SiteList.tsx:320-342 | on existing pages, "previous" is disabled iff page = 1 and "next" iff page = totalPages, as in the employee table |
| SiteList.StrictButtonsDifferOffRange | components/tables/SiteList.tsx:326-336 | off the existing pages the strict comparisons leave a button enabled that the employee table disables |
| Text.DigitChar | components/tables/SiteList.tsx:186-189 | each digit renders as a decimal digit character |
| Text.DigitValue | lib/validations/employee.ts:39-40 | a digit character's value is below 10 and renders back as the character |
| Text.NatToString | components/tables/SiteList.tsx:186-191 | a number renders as at least one digit, with a leading 0 only for 0 |
| Text.IntToString | components/tables/SiteList.tsx:186-191 | a negative number renders with a leading `-` |
| Text.DigitsValueOfNatToString | lib/validations/employee.ts:39-42 | reading back a rendered number gives the number |
| Text.NatToStringOfDigits | lib/validations/employee.ts:39-42 | rendering the value of a digit string without a leading zero gives the string back |
| Text.NatToStringLength | components/tables/SiteList.tsx:186-189 | a number of exactly k digits renders as exactly k characters |
| Text.LeadingNonZeroValue | lib/validations/employee.ts:39-42 | a digit string without a leading zero is worth at least 10^(length − 1) |
| Text.LeadingDigits | lib/validations/employee.ts:39-40 | the leading digit run is a prefix of digits, followed by a non-digit or the end |
| Text.ParseInt | lib/validations/employee.ts:39-41 | `parseInt` of a non-empty digit string is its value |
| Text.Repeat | components/tables/SiteList.tsx:186-189 | n copies of a character |
| Text.PadStart | components/tables/SiteList.tsx:186-189 | `padStart` pads up to the length with the fill character, keeps the string as its suffix and never truncates |
| Text.TwoDigitsIsPadStart | components/tables/SiteList.tsx:50-56 | the two-digit month is `String(n).padStart(2, "0")` |
| Text.TwoDigitPad | components/tables/SiteList.tsx:50-56 | below 100 the padded form is exactly two digits that read back as the number |
| Text.IntToStringInjective | components/ui/site-calendar.tsx:86-120 | distinct numbers render differently |
| Text.TrimStart | components/ui/employee-select.tsx:62-65 | the result is no longer than the input and does not start with white space |
| Text.TrimStartDropsBlankPrefix | components/ui/employee-select.tsx:62-65 | `trimStart` drops a white-space prefix and keeps the rest |
| Text.TrimEnd | components/ui/employee-select.tsx:62-65 | the result is no longer than the input and does not end with white space |
| Text.TrimEndDropsBlankSuffix | components/ui/employee-select.tsx:62-65 | `trimEnd` drops a white-space suffix and keeps the rest |
| Text.TrimEmptyIffBlank | components/ui/employee-select.tsx:62-65 | `term.trim()` is empty iff the term is blank or whitespace-only |
| Text.TrimStartSkipsWhitespace | components/tables/SiteList.tsx:264 | leading white space does not change the result of `trim` |
| Text.TrimOfTrimmed | components/tables/SiteList.tsx:264 | a string without surrounding white space is its own trim |
| Text.Split | components/tables/SiteList.tsx:257-258 | `split` gives at least one piece |
| Text.SplitPiecesLackSeparator | components/tables/SiteList.tsx:257-258 | no piece holds the separator |
| Text.SplitWithoutSeparator | lib/validations/employee.ts:37-38 | a string without the separator is a single piece |
| Text.SplitAfterPrefix | components/tables/SiteList.tsx:257-258 | splitting after a separator-free prefix only lengthens the first piece |
| Text.SplitAtFirst | lib/validations/employee.ts:37-38 | `n + sep + x` splits into n, then the pieces of x |
| Text.TrimAll | components/tables/SiteList.tsx:259-264 | one trimmed piece per piece |
| Text.TrimAllCons | components/tables/SiteList.tsx:259-264 | the trimmed pieces of a list are the first trimmed, then the rest |
| Text.JoinCons | components/forms/SiteForm.tsx:137-139 | a `", "`-join of two or more names is the first name, a comma, a blank, then the join of the rest |
| Text.SplitJoined | components/tables/SiteList.tsx:257-258 | splitting such a join on `,` gives the first name, then the pieces of the blank and the rest |
| Text.TrimAllAfterCommaSpace | components/tables/SiteList.tsx:259-264 | trimming removes the blank the join left after each comma |
| Text.SplitTrimInvertsJoin | components/tables/SiteList.tsx:255-266 | splitting on `,` and trimming each piece inverts the `", "` join of trimmed, comma-free names |
| Text.LexLessConcat | components/tables/SiteList.tsx:186-189 | string order of two concatenations with same-length prefixes is decided by the prefixes first |
| Text.DigitsValueFront | components/tables/SiteList.tsx:186-189 | a digit string's value is its first digit times 10^(length − 1) plus the rest's value |
| Text.DigitsValueBound | components/tables/SiteList.tsx:186-189 | a digit string of length k is worth less than 10^k |
| Text.LeadingDigitDecides | components/tables/SiteList.tsx:186-189 | a smaller leading digit decides the order of two numbers of one length |
| Text.LexLessDigits | components/tables/SiteList.tsx:186-189 | on digit strings of one length, string order is numeric order |
| Pattern.MatchesDigits | lib/validations/employee.ts:29 | `^\d{min,max}$` matches iff the string is min to max digits |
| Pattern.MatchesLitThen | lib/validations/site.ts:10 | a pattern starting with a literal matches iff the string starts with it and the rest matches |
| Pattern.MatchesDigitsThen | lib/validations/employee.ts:29 | a pattern starting with a digit run matches iff some digit prefix of allowed length is followed by a match of the rest |
| Pattern.PostalCodeShape | lib/validations/site.ts:10 | `^\d{3}-\d{4}$` matches iff the string is three digits, `-`, four digits |
| Pattern.BloodPressureShape | lib/validations/employee.ts:29-30 | `^\d{2,3}\/\d{2,3}$` matches iff the string is 2–3 digits, `/`, 2–3 digits |
| EmployeeSchema.Issues | lib/validations/employee.ts:3-50 | the form is accepted iff name and phone are non-empty, the birth-date year rule holds, the blood pressure is accepted, and both pays are at least 0 |
| EmployeeSchema.Validate | lib/validations/employee.ts:3-50 | failure iff there are issues, with exactly those fields; on success the parsed birth date and the normalised blood pressure |
| EmployeeSchema.OptionalFieldsUnconstrained | lib/validations/employee.ts:17-21 | the optional text fields never decide acceptance |
| EmployeeSchema.BirthdateRuleVersusAge | lib/validations/employee.ts:6-16 | an accepted birth date may still give an age of 15; an age of 16 or more is always accepted |
| EmployeeSchema.YearOnlyRuleAcceptsFifteen | lib/validations/employee.ts:11-13 | someone born 2009-12-31 passes on 2025-01-01 though aged 15 |
| EmployeeSchema.EmptyBloodPressure | lib/validations/employee.ts:22-35 | an absent or empty blood pressure is accepted and comes out absent |
| EmployeeSchema.DigitsHaveNoSlash | lib/validations/employee.ts:37 | a digit run holds no `/` |
| EmployeeSchema.SplitAtSlash | lib/validations/employee.ts:37-38 | two digit runs around a `/` split into exactly those two parts |
| EmployeeSchema.NormalizeDigitRuns | lib/validations/employee.ts:36-44 | two digit runs around a `/` come out as `${value}/${value}` |
| EmployeeSchema.NormalizeKeepsPlainRuns | lib/validations/employee.ts:36-44 | runs without a leading zero come back unchanged |
| EmployeeSchema.NormalizedBloodPressure | lib/validations/employee.ts:28-44 | an accepted non-empty reading is two digit runs around a `/`; it comes out as the runs' values, unchanged when neither run starts with 0 |
| SiteSchema.Issues | lib/validations/site.ts:3-21 | the form is accepted iff name, client, contact person, contact phone and address are non-empty, the postal code is absent, empty or `NNN-NNNN`, and the map link is absent, empty or a URL |
| SiteSchema.Validate | lib/validations/site.ts:3-21 | success iff there are no issues, returning the input; failure lists exactly the issues |
| SiteSchema.AcceptedPostalCodeShape | lib/validations/site.ts:8-12 | an accepted non-empty postal code has length 8, a `-` at index 3, and digits elsewhere |
| SiteSchema.OptionalFieldsUnconstrained | lib/validations/site.ts:19-20 | the staff names and the notes never decide acceptance |
| ClientSchema.Issues | lib/validations/client.ts:3-15 | the form is accepted iff company name, phone, contact person and contact phone are non-empty, the postal code is absent or `NNN-NNNN`, and the e-mail is absent or valid |
| ClientSchema.Validate | lib/validations/client.ts:3-15 | success iff there are no issues, returning the input; failure lists exactly the issues |
| ClientSchema.PostalCodeVersusSite | lib/validations/client.ts:7-10 | an empty postal code is rejected here but accepted by the site form; any other is treated alike by both |
| ClientSchema.OptionalFieldsUnconstrained | lib/validations/client.ts:6-14 | address and notes never decide acceptance, and an absent e-mail is accepted |
| SalesSchema.Issues | lib/validations/sales.ts:3-8 | the form is accepted iff clientId and date are non-empty and amount is at least 1; amount is flagged iff it is below 1 |
| SalesSchema.Validate | lib/validations/sales.ts:3-8 | success iff there are no issues, returning the input; failure lists exactly the issues |
| SalesSchema.NotesUnconstrained | lib/validations/sales.ts:7 | the notes never decide acceptance |

## Left out

- Database access (Prisma), sign-in (Clerk `auth()`) and HTTP serialisation are not modelled. The employee, site-date, user, client and sales tables are input sequences, and the handlers return a `Result` whose errors carry the status codes.
- The catch-all 500 responses (`app/api/payroll/calculate/route.ts:162-167`, `app/api/sales/client-stats/route.ts:133-139`) are out, since they stand for store failures. The one exception is the payroll route: a date string that does not parse is modelled as its 500 `CalculationFailed`, because comparing against an invalid `Date` is what makes the store throw there.
- JavaScript `Date` semantics are left out: time zones, `toISOString`, locale formatting and the implicit "now". Dates are (year, month, day) triples. The current day or month is a parameter. Parsing a date string is the parameter `parseDate`.
- The weekday of a month's first day (`getDay()`) is the input `startingDay`, in 0..6.
- `toLowerCase` is the case-folding parameter `lower` in `EmployeeSelect`.
- zod's `.url()` and `.email()` are the parameters `isUrl` and `isEmail`.
- JavaScript numbers are modelled as unbounded integers. Amounts and pays with fractions, NaN and infinities are out.
- Strings are sequences of Unicode characters rather than UTF-16 code units. A character outside the Basic Multilingual Plane has length 1 here and 2 in JavaScript, which would change `.length`, `padStart` and `<`. The keys, digits and patterns the model reasons about are ASCII.
- Text.ParseInt models `parseInt` only on what the blood-pressure transform can reach. It does not skip leading white space and does not accept a sign, both of which `parseInt` does.
- `orderBy: { date: "asc" }` in the client-stats query is not modelled. Each bucket sums a filter, so the order of the fetched sales does not change any entry.
- React and Next.js plumbing is left out: rendering, `useEffect` fetches, axios calls, routing, click-outside listeners and the loading flags.
- SiteCalendar.OnDay compares (year, month, day) triples instead of `YYYY-MM-DD` strings. `SiteCalendar.OnDayIsKeyEquality` proves the two agree on real dates.
- The comment above the month-option loop in `components/tables/SiteList.tsx` promises twelve past and six future months. The code emits the 36 months of three calendar years, and the model follows the code.
- `ClientList.tsx` repeats the employee table's pagination arithmetic and is not part of this model. The CRUD routes and forms other than the `", "` join in `components/forms/SiteForm.tsx:137-139` are not part of this model either.
