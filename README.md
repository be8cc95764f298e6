# Leave tracker: a verified model of its core

The leave tracker is a single-page application. It keeps a list of employee records, each with:

- an annual leave allowance (carried over from the previous year plus the current year's);
- days of special leave;
- a grid of leave taken. The grid runs month (1–12) → leave type → a bucket of dated entries, each worth half a day or a whole day.

The model covers four things.

- **The leave-metrics calculation.** For every record it produces:
  - twelve monthly totals;
  - one total per known leave type;
  - the annual leave taken (the leave type named "Phép Năm");
  - the grand total;
  - the remaining allowance;
  - a two-valued status ("Bình thường" / "Vượt phép").
- **The construction of a new record's grid**, with one empty bucket for every month and leave type.
- **The calendar dialog.**
  - Clicking a day toggles it in the selection.
  - Saving sorts the selection by date.
  - The saved selection is written into exactly one (month, leave type) cell of the form's draft record.
- **The three list commands**: add, update and delete, each behind its validation rules.

Modules, one per file:

- `Types` (`types.dfy`): the data model. Durations are a two-valued datatype and quantities of days are exact `real`s.
- `Dates` (`dates.dfy`): `YYYY-MM-DD` strings. Which of them are days of the calendar, how the calendar writes a day, their numeric sort key, and a proof that text order on them is calendar order.
- `Grid` (`grid.dfy`): the empty grid and the blank record, built by nested loops.
- `LeaveMetrics` (`metrics.dfy`): two parts.
  - The metrics as a specification function, `Metrics`.
  - The calculation as the application performs it, with nested loops over the grid: `CalculateLeaveMetrics` with `ZeroEntries`, `FoldMonths` and `AddMonth`. It is proved equal to `Metrics`.
- `MetricsProperties` (`metrics_properties.dfy`): what the metrics satisfy.
- `Calendar` (`calendar.dfy`): toggling, the in-place insertion sort on save, and writing the bucket back.
- `Roster` (`roster.dfy`): JavaScript `trim`, and add / update / delete on the employee list.

The leave-type list, the month list and the name placeholder are defined in a constants module that is not part of this model. They are parameters here: `leaveTypes`, `months` and `placeholder`. The fresh id of an added record is a parameter too (`freshId`).

The grand total does not always equal the sum of the monthly totals. The calculation adds up only the per-type entries of *known* leave types. The monthly totals count every bucket of a month, whatever its key. The two agree exactly when every bucket under a key that is not a known leave type is empty (`TotalsAgreeExactly`). In particular they agree when every bucket key is known (`TotalsAgree`). One non-empty bucket under an unknown key makes the monthly totals strictly larger (`TotalsDisagreeOnUnknownBucket`). The model follows the code here, not the expectation that the two totals are always equal.

## Model

| member | source | states |
|---|---|---|
| Types.Duration.Days | types.ts:4 | an entry is worth exactly 0.5 or 1.0 days, 0.5 precisely for a half day |
| Types.Status.Label | types.ts:31 | the status label is one of "Bình thường" / "Vượt phép", "Bình thường" precisely for the normal status |
| Dates.LexOrderIsChronological | types.ts:3 | for well-formed `YYYY-MM-DD` strings, JavaScript string `<` holds iff the first date is earlier by year, then month, then day |
| Dates.LexIsNumeric | types.ts:3 | on equal-length digit strings, text order is numeric order |
| Dates.DateKey | App.tsx:277 | the numeric sort key of a date encodes its year, month and day, each of which can be read back from it |
| Dates.DateKeyIsChronological | App.tsx:277 | the numeric sort key of a date grows exactly with calendar order |
| Dates.DateKeyInjective | App.tsx:277 | two well-formed dates with the same sort key are the same string |
| Dates.DaysInMonth | App.tsx:226 | a month has 28 to 31 days, and 29 exactly for February of a Gregorian leap year |
| Dates.PadDigits | App.tsx:239 | a number padded with zeros to w digits is w digits long and reads back as the number |
| Dates.FormatDate | App.tsx:239 | the string the calendar builds for a day it shows is a calendar date whose year, month and day read back as that day's |
| Grid.EmptyLeaveByMonth | App.tsx:21-30 | the grid has a row for exactly the given months, each row has a bucket for exactly the given leave types, and every bucket is empty |
| Grid.NewEmployee | App.tsx:32-39 | a blank record has the given id, an empty name, zero allowances and a fully populated empty grid |
| LeaveMetrics.BucketDays | App.tsx:77 | the days of a bucket lie between half and all of its number of entries |
| LeaveMetrics.RowSumRemove | App.tsx:76-85 | a month's total does not depend on the order its buckets are visited in: any bucket can be added first |
| LeaveMetrics.TypeSum | App.tsx:77-80 | the days of one leave type over the first n months are never negative |
| LeaveMetrics.SumValues | App.tsx:89 | the grand total of non-negative per-type entries is not negative |
| LeaveMetrics.Dedup | App.tsx:70 | the keys of the per-type dictionary are the known leave types, each exactly once |
| LeaveMetrics.Metrics | App.tsx:65-104 | the calculated record carries every employee field unchanged; total allowance is carried-over plus current; remaining is total minus annual leave taken; the status is over-limit iff remaining is negative; there is one per-type entry per known leave type, and twelve monthly totals |
| LeaveMetrics.AddMonth | App.tsx:74-86 | folding in one month's row adds each known type's bucket days to its entry, adds the annual bucket to the annual leave taken, leaves the dictionary's keys unchanged, and yields the sum of every bucket of the row |
| LeaveMetrics.ZeroEntries | App.tsx:70 | the per-type dictionary starts with exactly one entry per known leave type, each 0 |
| LeaveMetrics.FoldMonths | App.tsx:68-87 | after visiting the months, every known type's entry is its days over the year, the annual leave taken is the days of "Phép Năm" over the year, and entry i of the twelve monthly totals is the total of month i + 1 (0 for a month without a row) |
| LeaveMetrics.CalculateLeaveMetrics | App.tsx:65-104 | the loops compute exactly the specified metrics of the record |
| MetricsProperties.RowSumSplit | App.tsx:84 | a month's total over two disjoint sets of buckets is the sum of the two |
| MetricsProperties.RowSumSuperset | App.tsx:76 | keys that have no bucket contribute nothing to a month's total |
| MetricsProperties.RowSumOfDistinct | App.tsx:76-85 | a month's total over distinct keys equals adding them up in sequence |
| MetricsProperties.SumValuesIsTypesSum | App.tsx:89 | the grand total is the sum, over the known types, of each type's days in every month |
| MetricsProperties.TypesSumStep | App.tsx:72-87 | adding one more month adds that month's days under the known types |
| MetricsProperties.MonthTotalSplit | App.tsx:84-86 | a month's total splits into the known types' days plus the days under other keys |
| MetricsProperties.TypesSumByMonth | App.tsx:86-89 | the sum of the first n monthly totals is the known types' days plus the unknown-key days of those months |
| MetricsProperties.UnknownDaysSameTypes | App.tsx:70 | repeating a leave type in the list does not change what counts as unknown |
| MetricsProperties.MonthlyTotalsCountUnknownTypes | App.tsx:84-89 | the sum of the monthly totals equals the grand total plus the days under unknown keys |
| MetricsProperties.UnknownDaysOfKnownKeys | App.tsx:78 | when every key is known, nothing is recorded under unknown keys |
| MetricsProperties.TotalsAgree | App.tsx:84-89 | when every bucket key is a known leave type, the grand total equals the sum of the monthly totals |
| MetricsProperties.UnknownDaysCoversMonth | App.tsx:78-84 | a bucket under an unknown key counts towards the unknown-key days |
| MetricsProperties.TotalsDisagreeOnUnknownBucket | App.tsx:78-89 | one non-empty bucket under an unknown key makes the monthly totals exceed the grand total |
| MetricsProperties.RowSumOfEmptyKeys | App.tsx:84 | keys whose buckets are empty or absent add nothing to a month's total |
| MetricsProperties.UnknownDaysOfEmptyBuckets | App.tsx:78-84 | when every bucket under an unknown key is empty, nothing is recorded under unknown keys |
| MetricsProperties.TotalsAgreeExactly | App.tsx:84-89 | the grand total equals the sum of the monthly totals if and only if every bucket under an unknown key is empty |
| MetricsProperties.RowSumOfEmptyRow | App.tsx:77 | a row of empty buckets totals 0 |
| MetricsProperties.TypeSumOfEmptyGrid | App.tsx:77-80 | an empty grid has 0 days of every type |
| MetricsProperties.EmptyGridMetrics | App.tsx:65-92 | for a grid of empty buckets, every monthly total, per-type entry, annual leave taken and grand total is 0; remaining equals the allowance, and the status is normal iff the allowance is not negative |
| MetricsProperties.SumValuesAtLeastEntry | App.tsx:89 | the grand total is at least any single non-negative entry |
| MetricsProperties.AnnualWithinTotal | App.tsx:78-89 | when "Phép Năm" is a known type, its per-type entry equals the annual leave taken, which lies between 0 and the grand total |
| MetricsProperties.AnnualTakenIsTableSum | App.tsx:77-80 | when a table gives the annual leave of each month, the annual leave taken over months 1 to n is the sum of the table's first n entries |
| MetricsProperties.AllowanceScenarioNormal | App.tsx:90-92 | 5 carried-over + 7 current days with 3 days in February and 2 in May: allowance 12, taken 5, remaining 7, normal |
| MetricsProperties.AllowanceScenarioMoreLeave | App.tsx:90-92 | the same allowance with 3 more days in August: taken 8, remaining 4, normal |
| MetricsProperties.AllowanceScenarioOverLimit | App.tsx:90-92 | 0 + 2 days with 3 days in March: taken 3, remaining −1, over the limit |
| Calendar.RemoveDate | App.tsx:269 | removing a date keeps exactly the entries with other dates, and leaves a bucket without that date as it was |
| Calendar.RemoveDateConcat | App.tsx:269 | removal keeps the order of what it keeps: removing from a joined bucket is joining the removals from its pieces |
| Calendar.RemoveDateSingle | App.tsx:269 | on one entry, removal keeps it exactly when its date differs |
| Calendar.Toggle | App.tsx:265-274 | a click flips whether the day is in the selection and no other day's presence; an absent day is appended with the chosen duration; a present day loses all its entries and nothing else, the rest keeping their order (the removal above) |
| Calendar.ToggleTwiceRestores | App.tsx:265-274 | clicking an unselected day twice restores the selection, whatever durations were chosen |
| Calendar.RemoveDateKeepsUnique | App.tsx:269 | removing a date keeps a selection free of repeated dates |
| Calendar.ToggleKeepsDatesUnique | App.tsx:265-274 | toggling keeps a selection free of repeated dates |
| Calendar.RemoveDateDays | App.tsx:269 | in a selection without repeated dates, removing a date takes away exactly its entry's days |
| Calendar.ToggleDays | App.tsx:265-274 | a toggle adds the chosen duration's days for a new day, or removes exactly the days of the day's entry |
| Calendar.ToggleKeepsCalendarDates | App.tsx:239-241 | toggling a day the calendar offers keeps every entry of the selection a calendar date |
| Calendar.SortKeyOrdersByDate | App.tsx:277 | on calendar dates, one entry's sort key is smaller than another's exactly when its day comes first, and the keys are equal exactly when the dates are |
| Calendar.SortedByDateIsTextOrder | App.tsx:277 | a bucket sorted by date is also in text order of its date strings |
| Calendar.CalendarDatesPermutation | App.tsx:277 | reordering a bucket of calendar dates leaves only calendar dates in it |
| Calendar.Swap | App.tsx:277 | exchanging two adjacent entries changes only those two and keeps the same entries |
| Calendar.InsertDown | App.tsx:277 | one insertion step extends the sorted prefix by one entry, leaves the entries after it alone, and keeps the same entries |
| Calendar.SortByKey | App.tsx:277 | the in-place sort leaves the array ordered by the key and a permutation of what it held |
| Calendar.HandleSave | App.tsx:276-279 | the saved bucket is the selection sorted ascending by date, a permutation of it |
| Calendar.BucketDaysRemoveAt | App.tsx:77 | a bucket's days are those of the bucket without one entry, plus that entry's days |
| Calendar.BucketDaysPermutation | App.tsx:77 | reordering a bucket does not change its days, so sorting on save changes no total |
| Calendar.CalendarSave | App.tsx:534-542 | without a selected month or leave type the draft is unchanged; a month with no row in the grid is an error; otherwise only the selected cell is replaced by the bucket, and every other cell and field stays as it was |
| Calendar.TypeSumAfterSave | App.tsx:538 | after a save, the days of the saved leave type change by the new bucket's days minus the old bucket's, and no other type changes |
| Calendar.SaveEffectOnMetrics | App.tsx:534-542 | a save changes the annual leave taken by the change in the annual bucket only (and not at all for other types), and leaves other types' totals and other months' totals unchanged |
| Roster.LeadingCount | App.tsx:489 | counts the white space a name starts with: all of it is white space, and the next character is not |
| Roster.TrailingCount | App.tsx:489 | counts the white space a name ends with: all of it is white space, and the character before it is not |
| Roster.TrimStart | App.tsx:489 | the result starts with no white space, and is what follows a prefix made only of white space |
| Roster.TrimEnd | App.tsx:489 | the result ends with no white space, and is what precedes a suffix made only of white space |
| Roster.Trim | App.tsx:489-493 | the trimmed name is a middle slice of the name, cut where only white space lies on either side, and neither starts nor ends with white space |
| Roster.TrimBlank | App.tsx:489 | a name trims to the empty string iff it consists only of white space |
| Roster.TrimIdempotent | App.tsx:493 | trimming a trimmed name changes nothing |
| Roster.AddCheck | App.tsx:488-500 | an add passes the checks iff the trimmed name is not empty, the name is not the placeholder, no record has the trimmed name, and special leave is at most 14; each refusal reason is reported in the order the checks run |
| Roster.HasNameAppend | App.tsx:493 | after one more record is appended, some record has a name exactly when one already did or the new one has it |
| Roster.AddEmployeeAsWritten | App.tsx:488-504 | a refused add leaves the list unchanged and reports the reason; an accepted add keeps the list and appends the draft under the fresh id, with its name as typed |
| Roster.AddAsWrittenAdmitsDuplicateName | App.tsx:493-501 | with " An" on the list and " An" typed again, the add is accepted and the list holds the name twice |
| Roster.AddCheckTrimmed | App.tsx:488-500 | the corrected checks: they pass iff the trimmed name is not empty, neither the typed nor the trimmed name is the placeholder, no record has the trimmed name, and special leave is at most 14; each refusal reason is reported in the order the checks run |
| Roster.AddCheckTrimmedRefusesMore | App.tsx:488-500 | the corrected checks refuse every draft the form's checks refuse, and refuse more only a name that trims to the placeholder |
| Roster.AddEmployee | App.tsx:488-504 | as intended: refused exactly when the corrected checks refuse, with their reason; otherwise the list is kept and the draft appended under the fresh id with its trimmed name |
| Roster.AddKeepsNamesDistinct | App.tsx:493-501 | an accepted add never puts a second record with the same name on a list whose names were distinct |
| Roster.AddStoresTrimmedName | App.tsx:489-501 | the appended record's name is already trimmed, not blank and not the placeholder |
| Roster.DeleteEmployee | App.tsx:520-524 | a delete keeps exactly the records with other ids, so none has the id, and leaves a list without that id as it was |
| Roster.DeleteConcat | App.tsx:522 | deletion keeps the order of the records it keeps: deleting from a joined list is joining the deletions from its pieces |
| Roster.DeleteSingle | App.tsx:522 | on one record, deletion keeps it exactly when its id differs |
| Roster.DeleteIdempotent | App.tsx:522 | deleting twice is deleting once |
| Roster.AddThenDeleteRestores | App.tsx:501-522 | deleting the record just added, by its fresh id, gives back the list as it was |
| Roster.ReplaceById | App.tsx:515 | replacing by id keeps the length and replaces exactly the records with the draft's id |
| Roster.UpdateEmployeeAsWritten | App.tsx:506-518 | an update is refused with each reason iff the draft's id is empty, or else special leave exceeds 14; it is accepted iff neither holds, and then the list keeps its length and exactly the records with the draft's id become the draft |
| Roster.UpdateOfUnknownIdChangesNothing | App.tsx:515 | an update whose id is on no record leaves the list as it was |
| Roster.UpdateAsWrittenAcceptsUnselected | App.tsx:506-517 | a draft with a fresh id that no record carries, as the blank form holds, is accepted and changes nothing |
| Roster.UpdateEmployee | App.tsx:506-518 | as intended: refused iff the draft's id is empty or on no record, or else special leave exceeds 14; accepted iff none holds, and then the list keeps its length, exactly the records with the draft's id become the draft, and at least one does |
| Roster.UpdateKeepsIds | App.tsx:515 | an accepted update keeps the list's length and the id at every position |
| Roster.UpdateIdempotent | App.tsx:515 | updating twice with the same draft is updating once |

## Left out

- Browser storage (`useLocalStorage`, App.tsx:41-63) is not modelled. The list is a value passed to and returned from the commands.
- The spreadsheet export (`exportToExcel`, App.tsx:106-145) is not modelled. It wraps an external library and the browser's file download.
- Random id generation (`generateUUID`, App.tsx:13-19) is replaced by a `freshId` parameter. Freshness is a precondition only where a lemma needs it.
- No React component or rendering is modelled:
  - the guide;
  - the details dialog;
  - the day grid of the calendar and its weekday offset (App.tsx:227-230); the days it offers are modelled by `FormatDate` and `DaysInMonth`;
  - the form;
  - the table;
  - `toFixed` formatting.
- The numeric inputs' `parseFloat`, and the name input's lookup of an existing record, are not modelled (App.tsx:320-344).
- The name filter of the table (App.tsx:481) is not modelled, because it depends on Unicode lower-casing.
- The login screen and the theme toggle are not modelled.
- Confirmation and alert dialogs are not modelled. A delete is taken as confirmed, and a refusal returns its reason with the list unchanged.
- Resetting the form to a blank record after an add or update (App.tsx:502, 516) is not part of the commands' results.
- Numbers are exact reals, not IEEE doubles. Sums of halves and wholes are exact in both, but negative or fractional allowances typed by the user may round differently in the application.
- Month keys outside 1–12 are excluded by the `Month` type. The grid's declared key type (types.ts:12) is any number; only its comment says 1–12. The application itself only creates the keys 1–12 (App.tsx:21-30), but a stored grid could hold others, and those are not modelled.
- A bucket key that names a property inherited by every JavaScript object (such as "constructor") would pass the application's `in` test. This is not modelled.
- LeaveMetrics.Metrics: the per-type dictionary's values are added up in the order of the distinct leave types. With exact reals the order does not change the result.
- Calendar.SortByKey: the sort's stability is not stated. Entries with equal dates keep their relative order in this insertion sort, but no contract says so.
- Calendar.HandleSave: requires every selected date to be a calendar date, a `YYYY-MM-DD` string naming a real day. The day grid only builds such strings (`ToggleKeepsCalendarDates`). A stored string that is not one, such as "2024-13-45", makes `new Date` produce NaN, and the comparator's order is then implementation-defined. The `getTime` order is modelled only for calendar dates.
- Calendar.HandleSave: the application sorts in place the dialog's array (App.tsx:277). Until the first toggle, that array is the draft's own bucket (App.tsx:587). After the name lookup of App.tsx:325-327, which copies nothing, the stored record's bucket is the same array too. The model sorts a fresh copy, so this aliasing is not modelled.
- Dates.FormatDate: requires a four-digit year. The application writes the current year of the clock (App.tsx:263) unpadded, which is the same string for years 1000 to 9999.
- Calendar.CalendarSave: the application's month and leave type are optional fields. An absent field is modelled as 0 or the empty string, which the application treats alike.

## Findings

| source | as written | input that shows it | evidently intended | confidence | as-written member | corrected member |
|---|---|---|---|---|---|---|
| App.tsx:493-501 | the duplicate check compares existing names with the *trimmed* draft name, but the record appended keeps the name as typed | the list holds a record named " An"; the form's name is " An"; the check looks for "An", finds none, and a second " An" is appended | the name that is checked, against the list and the placeholder, is the name that is stored, so no two records share a name and none is the placeholder | not executed | Roster.AddAsWrittenAdmitsDuplicateName | Roster.AddKeepsNamesDistinct |
| App.tsx:506-517 | the update checks only that the draft's id is not empty, but the blank form always carries a fresh id (App.tsx:32-33), so an update with no record selected passes the check | the form is cleared (App.tsx:485), giving a draft with a fresh id; pressing update is accepted, the `map` replaces nothing, and the success alert is shown | an update with no record selected is refused with the alert asking to pick a record | not executed | Roster.UpdateAsWrittenAcceptsUnselected | Roster.UpdateEmployee |
