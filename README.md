# Attendance summariser: a Dafny model

This project models the part of the finger-scanner wrapper that turns badge
punches into attendance summaries. There are three parts.

1. **Cap/absence pipeline** (`adms_wrapper/core/data_processing.py`, module `DataProcessing`).
   - Punches are grouped by employee and calendar date.
   - Each group is timed against the employee's shift. The cap is the shift end plus 8 hours, or a flat 8 hours with no shift.
   - The result is padded with `absent` rows for every non-Sunday day of the range.
   - With no usable punches, it falls back to an absent grid for the roster.
2. **Late-checkout pipeline** (`adms_wrapper/__main__.py`, module `AdmsMain`).
   - An early-morning punch after the shift end is credited to the previous day, when the employee punched on that day.
   - A single-punch day ends at 23:59:59.
   - Nothing is ever capped, and absences are never added.
   - `main`'s optional date filter is modelled as well.
3. **Report decoration** (`adms_wrapper/core/excel_logic.py`, module `ExcelLogic`).
   - The late-checkout summary gets branch, designation and employee-branch lookups.
   - Each row gets a shift name and a shift flag, found by comparing `HH:MM` texts as strings.
   - Each employee's rows are followed by a subtotal row of their worked time.

Shared modules:
- `Calendar`: timestamps as whole seconds since 1970-01-01, days as day numbers, Python's weekday numbering (Sunday is 6), and the non-Sunday days of a range.
- `Text`: Python's ordering of strings.
- `Records`: punches, entries and summary records.
- `Partition`: first-appearance keys, selections and dict folds where the last write wins.
- `Grouping`: the `groupby(["employee_id", "day"])` summary both pipelines build, including `get_device_for_time`.
- `LateCheckoutExample`: a worked example showing how chained reassignment produces a negative time spent.

Each loop of the source is a method with invariants, proved equal to a specification function. The lemmas state what those functions mean.

The code never counts worked days. The late-checkout pipeline, which the report uses, never adds absent rows.

## Model

| member | source | states |
|---|---|---|
| Calendar.Weekday | adms_wrapper/core/data_processing.py:34-36 | in [0, 7); a day is a Monday (0) exactly when its day number is 4 mod 7, and a Sunday (6) exactly when it is 3 mod 7 |
| Calendar.WorkingDays | adms_wrapper/core/data_processing.py:184-189 | the days of the inclusive range without Sundays, strictly increasing; empty when the end is before the start |
| Calendar.WeekHasSixWorkingDays | adms_wrapper/core/data_processing.py:186-189 | any seven consecutive days give exactly six report days |
| Calendar.TimeOfDay | adms_wrapper/__main__.py:55-57 | the time of day lies in [0, 86400) and, added to the day's midnight, gives the timestamp back |
| Calendar.Hour | adms_wrapper/__main__.py:70 | the hour is in [0, 24) and brackets the time of day |
| Calendar.DayOfTime | adms_wrapper/__main__.py:55-57 | a time of day on a given date falls on that date, at that time |
| Text.LtTransitive | adms_wrapper/core/data_processing.py:283 | string order is transitive (with LtIrreflexive and LtTotal, a strict total order to sort ids by) |
| Text.LtConcat | adms_wrapper/core/excel_logic.py:83 | comparing two strings with equal-length heads decides on the heads first, and looks at the rest only on a tie |
| Records.ColumnsOf | adms_wrapper/core/data_processing.py:280 | a frame built from records has the nine summary columns (in the order of its first record) and no columns when there are no records |
| Records.KeyLtTransitive | adms_wrapper/core/data_processing.py:283 | the `(employee_id, day)` order is transitive |
| Partition.Keys | adms_wrapper/__main__.py:84 | `unique()`: exactly the keys that occur, each once |
| Partition.KeysInFirstAppearanceOrder | adms_wrapper/__main__.py:84 | `unique()` lists keys in order of first appearance: wherever a listed key occurs, every key listed before it has already occurred |
| Partition.Select | adms_wrapper/__main__.py:85 | the rows with a key: exactly the members with that key |
| Partition.SelectCounts | adms_wrapper/__main__.py:85 | each member with the key is kept as often as the input holds it, every other member not at all |
| Partition.SelectConcat | adms_wrapper/__main__.py:85 | selection keeps input order: selecting from two runs joined is joining the two selections |
| Partition.KeysRegroupIsPermutation | adms_wrapper/__main__.py:84-85 | concatenating the groups of all first-appearance keys is a permutation of the input |
| Partition.LastWrites | adms_wrapper/core/data_processing.py:15-21 | the dict is defined on exactly the keys that occur, and each key holds the value of its last row |
| Grouping.FirstMinIndex | adms_wrapper/core/data_processing.py:27-28 | `idxmin`: a position with the smallest timestamp, and the first such |
| Grouping.FirstMaxIndex | adms_wrapper/core/data_processing.py:29-30 | `idxmax`: a position with the largest timestamp, and the first such |
| Grouping.DeviceForTime | adms_wrapper/core/data_processing.py:25-31 | the device of the first earliest or first latest punch of the group (also `__main__.py` 22-34, whose `idx in group.index` always holds) |
| Grouping.GroupKeys | adms_wrapper/core/data_processing.py:251-252 | the group keys are strictly sorted, and a key is listed exactly when some punch carries it |
| Grouping.Members | adms_wrapper/core/data_processing.py:252 | a group holds exactly the punches with its key, and is non-empty exactly when the key occurs |
| Grouping.MembersConcat | adms_wrapper/core/data_processing.py:252 | a group keeps the entries' order: the group of two runs joined is the two groups joined; one entry forms its own group or none |
| Grouping.MembersCounts | adms_wrapper/core/data_processing.py:252 | a group holds each entry with its key as often as the entries do, and nothing else |
| Grouping.Summarise | adms_wrapper/core/data_processing.py:253-263 | start is the minimum and end the maximum timestamp (so start <= end); both are attained; the devices are those of the first min and first max; count = group size |
| Grouping.GroupBy | adms_wrapper/core/data_processing.py:251-267 | one row per group key, in key order |
| Grouping.GroupBySortedAndComplete | adms_wrapper/core/data_processing.py:251-267 | the rows are strictly sorted by key; a key has a row exactly when it occurs; there are no rows exactly when there are no punches |
| Grouping.GroupByRow | adms_wrapper/core/data_processing.py:253-263 | each row bounds its members' timestamps from both sides, attains both bounds, and carries the devices of the first extremes |
| Grouping.GroupByCountsEveryEntry | adms_wrapper/core/data_processing.py:261 | the `num_entries` of all groups add up to the number of punches |
| DataProcessing.ShiftTable | adms_wrapper/core/data_processing.py:12-22 | the table is keyed by exactly the users listed, and a user listed twice keeps the shift of its last row |
| DataProcessing.GetShiftMappings | adms_wrapper/core/data_processing.py:14-22 | the fold loop builds exactly that last-write-wins table |
| DataProcessing.IsWeekend | adms_wrapper/core/data_processing.py:34-36 | true exactly for Sundays |
| DataProcessing.CalculateTimeSpentAndFlag | adms_wrapper/core/data_processing.py:39-99 | no start: 0, not capped, end kept; Sunday: the exact duration, not capped, end kept; shift: capped iff no checkout or checkout >= shift end + 8 h (inclusive), then ending at that cap, time = effective end - start; no shift: capped iff the duration is strictly over 8 h, then exactly 8 h, end kept; never more than the actual duration |
| DataProcessing.ShiftStartIsIgnored | adms_wrapper/core/data_processing.py:64-73 | the shift start has no effect on the result (only the unused `expected_duration` reads it) |
| DataProcessing.OvernightShiftWithoutCheckoutIsNegative | adms_wrapper/core/data_processing.py:68-79 | a 22:00-06:00 shift punched in at 22:30 with no checkout is capped at 14:00 of the same date, giving -8 h 30 min |
| DataProcessing.ProcessAttendanceEntries | adms_wrapper/core/data_processing.py:102-117 | one entry per punch, in order, with employee, timestamp and device kept and the day set to the punch's date |
| DataProcessing.CalendarEntries | adms_wrapper/core/data_processing.py:104 | same length as the punches, and each entry's day is its punch's date |
| DataProcessing.AbsentRow | adms_wrapper/core/data_processing.py:198-211 | one absent record (no times, empty devices, 0, not capped) per listed day, in order |
| DataProcessing.AbsentGridContents | adms_wrapper/core/data_processing.py:193-213 | a record is in the grid exactly when it is the absent record of a non-empty roster id and a listed day; size = non-empty ids x days |
| DataProcessing.GenerateAbsentDaysForDateRange | adms_wrapper/core/data_processing.py:175-213 | the nested loops build the absent grid over the non-Sunday days of the range; an empty roster gives no rows |
| DataProcessing.DayData | adms_wrapper/core/data_processing.py:150-153 | exactly the worked rows with that employee and day |
| DataProcessing.MinDay | adms_wrapper/core/data_processing.py:135 | the earliest day of the worked rows |
| DataProcessing.MaxDay | adms_wrapper/core/data_processing.py:135 | the latest day of the worked rows |
| DataProcessing.GenerateAbsentRow | adms_wrapper/core/data_processing.py:197-210 | the loop over the days builds one absent row per listed day, in order |
| DataProcessing.GenerateCompleteRecords | adms_wrapper/core/data_processing.py:120-172 | outer loop over the employees, inner loop over the days: the result is exactly the complete-records function |
| DataProcessing.GenerateEmployeesRecords | adms_wrapper/core/data_processing.py:145-170 | the loop over the employees builds exactly their blocks, in list order, skipping empty ids |
| DataProcessing.GenerateEmployeeRecords | adms_wrapper/core/data_processing.py:152-170 | the per-day loop of one employee builds exactly that employee's records |
| DataProcessing.DayDataAtMostOne | adms_wrapper/core/data_processing.py:153-156 | in a summary sorted by key, a day has at most one worked row |
| DataProcessing.DayRecordsSingle | adms_wrapper/core/data_processing.py:153-170 | each day contributes exactly one row with that key: the worked row when one exists, otherwise the absent row |
| DataProcessing.EmployeeRecordsIndexed | adms_wrapper/core/data_processing.py:152-170 | row j of an employee's block is the record of day j |
| DataProcessing.EmployeeBlock | adms_wrapper/core/data_processing.py:146-170 | one row per day, keyed by that day, sorted when the days increase, holding exactly those days' records |
| DataProcessing.CompleteMembers | adms_wrapper/core/data_processing.py:129-172 | a record is produced exactly when it is the day record of a non-empty listed employee and a listed day; empty ids are skipped |
| DataProcessing.CompleteLength | adms_wrapper/core/data_processing.py:146-170 | exactly one record per (non-empty employee, report day) |
| DataProcessing.CompleteSorted | adms_wrapper/core/data_processing.py:146-170 | with sorted employees and increasing days the records come out sorted by `(employee_id, day)` |
| DataProcessing.KeysSorted | adms_wrapper/core/data_processing.py:140 | the employees of a key-sorted summary, in first-appearance order, are sorted |
| DataProcessing.WorkedRow | adms_wrapper/core/data_processing.py:272-277 | a worked row keeps its group's key, start and devices; never more time than end - start; uncapped means exactly that and the actual end; only weekday rows are capped; without a shift at most 8 h |
| DataProcessing.WorkedSummary | adms_wrapper/core/data_processing.py:251-277 | one timed row per group, in group order |
| DataProcessing.WorkedSummaryFacts | adms_wrapper/core/data_processing.py:251-267 | the worked summary is sorted by key and has a row for exactly the keys of the punches |
| DataProcessing.ProcessAttendanceSummary | adms_wrapper/core/data_processing.py:225-285 | the summary is the fallback grid for missing columns or no punches, otherwise the complete records of the timed groups |
| DataProcessing.WorkedEmployees | adms_wrapper/core/data_processing.py:140-142 | the employees of the worked summary are exactly the employees who punched |
| DataProcessing.WorkedSummaryNonEmpty | adms_wrapper/core/data_processing.py:245-270 | with punches the worked summary is never empty (the empty-summary branches are dead) |
| DataProcessing.SummaryIsSorted | adms_wrapper/core/data_processing.py:279-285 | with punches the summary is already sorted by `(employee_id, day)`, so the final sort keeps it as it is |
| DataProcessing.SummaryRows | adms_wrapper/core/data_processing.py:129-172 | every row belongs to a non-empty punching employee and a report day; it is worked exactly when that key had punches (then it is the timed row), otherwise it is the absent row |
| DataProcessing.SummaryCovers | adms_wrapper/core/data_processing.py:146-170 | every (non-empty punching employee, report day) pair has a row |
| DataProcessing.SummarySize | adms_wrapper/core/data_processing.py:146-170 | the size is the number of non-empty punching employees times the number of report days |
| DataProcessing.SummaryHasNoSundays | adms_wrapper/core/data_processing.py:137-138 | no summary row is on a Sunday, so worked Sunday rows are dropped |
| DataProcessing.FallbackRows | adms_wrapper/core/data_processing.py:216-240 | without usable punches the columns are the nine fixed ones; without both dates there are no rows; otherwise exactly the roster x non-Sunday-day absent grid |
| AdmsMain.TimedeltaToClock | adms_wrapper/__main__.py:64-68 | the two `divmod`s give a valid time of day with the same number of seconds |
| AdmsMain.ClockRoundTrip | adms_wrapper/__main__.py:64-68 | converting a time's seconds back gives the same hours, minutes and seconds |
| AdmsMain.EndSeconds | adms_wrapper/__main__.py:62-68 | a usable shift end is a time of day in [0, 86400); a time gives its own seconds after midnight, a timedelta keeps its seconds |
| AdmsMain.ShiftTable | adms_wrapper/__main__.py:37-50 | keyed by exactly the listed users; a later row for the same user overwrites an earlier one |
| AdmsMain.GetShiftMappings | adms_wrapper/__main__.py:37-50 | the loop, with its early return on an empty frame, builds exactly that table |
| AdmsMain.LateCheckoutDay | adms_wrapper/__main__.py:53-77 | the punch's date or the day before, and the day before exactly when: the employee has a shift, the time of day is strictly after its end, the hour is before 12, and one of their punches is dated the previous day |
| AdmsMain.AfternoonShiftEndNeverReassigns | adms_wrapper/__main__.py:70 | with a shift ending at noon or later, a punch always counts for its own date |
| AdmsMain.InsertByTs | adms_wrapper/__main__.py:85 | inserting keeps every punch and adds the new one |
| AdmsMain.SortByTs | adms_wrapper/__main__.py:85 | `sort_values("timestamp")`: a permutation in ascending timestamp order |
| AdmsMain.EmployeeData | adms_wrapper/__main__.py:85 | exactly one employee's punches, each as often as in the input, in timestamp order |
| AdmsMain.EmployeeDataCounts | adms_wrapper/__main__.py:85 | the employee's data holds each of that employee's punches exactly as often as the input does, and no other punch |
| AdmsMain.EmployeeEntries | adms_wrapper/__main__.py:87-95 | one entry per punch of the employee, in order, with employee, timestamp and device kept |
| AdmsMain.GenerateEmployeeEntries | adms_wrapper/__main__.py:87-95 | the inner loop builds exactly that block |
| AdmsMain.GenerateBlocks | adms_wrapper/__main__.py:84-95 | the loop over the listed employees builds exactly their blocks, one after another |
| AdmsMain.ProcessAttendanceEntries | adms_wrapper/__main__.py:80-97 | the outer loop over `unique()` employees builds exactly the per-employee blocks, one after another |
| AdmsMain.EmployeeDataPunchedOn | adms_wrapper/__main__.py:72-74 | the previous-day test on an employee's data is the same as a test over all punches of that employee |
| AdmsMain.EmployeeBlockFacts | adms_wrapper/__main__.py:84-95 | each block entry belongs to its employee and is credited to its assigned day, in timestamp order |
| AdmsMain.BlocksPermutation | adms_wrapper/__main__.py:84-97 | the blocks' punches are a permutation of the regrouped input |
| AdmsMain.BlocksAssigned | adms_wrapper/__main__.py:84-97 | every entry is credited to its assigned day |
| AdmsMain.BlocksInListOrder | adms_wrapper/__main__.py:84-95 | for distinct listed employees, an entry of a later-listed employee never precedes one of an earlier-listed one |
| AdmsMain.ListOrderContiguous | adms_wrapper/__main__.py:84-95 | entries in list order, all of listed employees, form one unbroken run per employee |
| AdmsMain.ProcessedEntriesFacts | adms_wrapper/__main__.py:80-97 | one entry per input punch (a permutation of the punches); each credited to its own date or, by the late-checkout rule, the day before; each employee's entries in timestamp order; one unbroken run per employee, the runs in the employees' order of first appearance among the punches |
| AdmsMain.MainTimeSpent | adms_wrapper/__main__.py:100-134 | never capped; a single-punch group ends at 23:59:59 of its day, a larger group at its last punch; the time spent is end - start |
| AdmsMain.ShiftNeverChangesTiming | adms_wrapper/__main__.py:115-131 | the result is the same with or without a shift: the shift branch does nothing |
| AdmsMain.SinglePunchTime | adms_wrapper/__main__.py:111-113 | a single punch on its own date spends the rest of the day (>= 0); one credited to the day before spends -1 s minus its time of day (< 0) |
| AdmsMain.MainWorkedRow | adms_wrapper/__main__.py:209-218 | a worked, uncapped row with its group's key, start and devices; its `end_time` is the group's last punch, or 23:59:59 of the day for a single punch, and its `time_spent` runs from start to that end |
| AdmsMain.MainWorkedSummary | adms_wrapper/__main__.py:184-218 | one row per group, in group order, each row that group's timed row (`end_time`, `time_spent` as above) |
| AdmsMain.GenerateCompleteRecords | adms_wrapper/__main__.py:137-148 | the worked rows, copied unchanged: nothing added or removed |
| AdmsMain.ProcessAttendanceSummary | adms_wrapper/__main__.py:151-226 | missing columns or no punches give an empty table with the nine columns; otherwise the timed grouped rows |
| AdmsMain.MainSummaryFacts | adms_wrapper/__main__.py:184-226 | with punches: rows exist, all worked and uncapped, sorted by `(employee_id, day)` (so the final sort changes nothing); a key has a row exactly when a processed entry carries it; row i is the timed row of group i; the groups count every punch once |
| AdmsMain.FilterByDate | adms_wrapper/__main__.py:255-263 | exactly the punches at or after the start date's midnight and at or before the end date's midnight; every punch when none is excluded |
| AdmsMain.FilterByDateConcat | adms_wrapper/__main__.py:255-263 | the filter keeps input order: filtering two runs joined is joining the two filtered runs |
| AdmsMain.FilterByDateCounts | adms_wrapper/__main__.py:255-263 | each punch in range is kept as often as the input holds it, every other punch not at all |
| AdmsMain.NoRangeKeepsEverything | adms_wrapper/__main__.py:255 | without dates nothing is filtered |
| AdmsMain.EndDayExcludesLaterPunches | adms_wrapper/__main__.py:261-262 | a punch on the end date after 00:00:00 is dropped |
| AdmsMain.SummaryForRange | adms_wrapper/__main__.py:248-265 | `main` without the export: the summary of the filtered punches |
| AdmsMain.EntryFromPunch | adms_wrapper/__main__.py:84-97 | a processed entry comes from an input punch and is credited to its date or the day before |
| AdmsMain.RangeSummaryDays | adms_wrapper/__main__.py:255-265 | no summary row of a range lies after its end date or before the day before its start date |
| LateCheckoutExample.ChainDays | adms_wrapper/__main__.py:53-77 | on a shift ending at 01:00, the 02:00 punch of the second day moves to the first day, and the 02:00 punch of the third day moves to the second day |
| LateCheckoutExample.LateCheckoutEntryFacts | adms_wrapper/__main__.py:80-97 | the processed entries of that example, one by one |
| LateCheckoutExample.ChainLateGroup | adms_wrapper/__main__.py:184-200 | the second day's group is the single punch of the third day |
| LateCheckoutExample.ChainedCheckoutIsNegative | adms_wrapper/__main__.py:100-134 | that row spends -7201 s: from 02:00 of the third day to 23:59:59 of the second |
| ExcelLogic.FirstMatch | adms_wrapper/core/excel_logic.py:20-22 | no match exactly when no row has the key; otherwise the first row that has it |
| ExcelLogic.Lookup | adms_wrapper/core/excel_logic.py:17-53 | `map_branch`, `map_designation` and `map_employee_branch`: `""` for a missing id or no match, otherwise the value of the first matching row |
| ExcelLogic.HHMM | adms_wrapper/core/excel_logic.py:83 | `str(ts)[11:16]` is five characters with a colon in the middle |
| ExcelLogic.Pad2Order | adms_wrapper/core/excel_logic.py:83 | two-digit padded numbers compare as text exactly as they compare as numbers |
| ExcelLogic.HHMMAgainstClockText | adms_wrapper/core/excel_logic.py:83-95 | against a `HH:MM:SS` text, `HH:MM` is greater exactly when it is a later minute, and smaller exactly when it is the same or an earlier minute |
| ExcelLogic.TimeFlag | adms_wrapper/core/excel_logic.py:80-96 | `late checkout` iff end text > shift end and hour < 12; `early out` iff end text < shift end; `late in` iff start text > shift start and neither end flag applies; otherwise `on time` |
| ExcelLogic.GetShiftInfo | adms_wrapper/core/excel_logic.py:60-99 | `no shift` with no name exactly when no template has the employee; otherwise the first template's name with `absent`, else `shift_capped`, else the time flag, in that order |
| ExcelLogic.LateInByMinute | adms_wrapper/core/excel_logic.py:82-84 | with a `HH:MM:SS` start, a check-in is late exactly when it is in a later minute |
| ExcelLogic.EarlyOutByMinute | adms_wrapper/core/excel_logic.py:85-96 | with a `HH:MM:SS` end, a checkout in the end minute or earlier is `early out`, and a later one before noon is `late checkout` |
| ExcelLogic.HalfPastFiveCheckoutIsEarlyOut | adms_wrapper/core/excel_logic.py:91-96 | a 17:30 checkout against `17:30:00` is `early out` |
| ExcelLogic.EightOClockCheckInIsOnTime | adms_wrapper/core/excel_logic.py:82-84 | an 08:00 check-in against `08:00:00` is on time; an 08:01 one is `late in` |
| ExcelLogic.UnpaddedStartNeverLate | adms_wrapper/core/excel_logic.py:83 | a start whose text has an unpadded hour from 2 to 9 (`8:00:00`) is never passed: no check-in is `late in` |
| ExcelLogic.DaysStartAlwaysLate | adms_wrapper/core/excel_logic.py:83 | a start whose text is `str` of a `pd.Timedelta` (`0 days 08:00:00`) is always passed: every check-in is `late in` |
| ExcelLogic.SingleDigitStartHidesLateness | adms_wrapper/core/excel_logic.py:83 | an 08:05 check-in against `8:00:00` stays `on time` |
| ExcelLogic.DecorateRow | adms_wrapper/core/excel_logic.py:17-107 | the record is kept; the device branches are looked up only for worked rows (`""` otherwise); designation and employee branch are looked up by id; shift name and flag come from `get_shift_info` |
| ExcelLogic.Decorate | adms_wrapper/core/excel_logic.py:101-107 | the loop decorates every row into a new sequence, in order |
| ExcelLogic.DecoratedRows | adms_wrapper/core/excel_logic.py:26-55 | each row decorated, same length |
| ExcelLogic.WorkedTimeAppend | adms_wrapper/core/excel_logic.py:114-117 | the worked time of two parts adds up |
| ExcelLogic.WorkedTimeOfNoWorkedRows | adms_wrapper/core/excel_logic.py:114-120 | a group without worked rows totals 0 (`0:00:00`) |
| ExcelLogic.SubtotalRow | adms_wrapper/core/excel_logic.py:122-130 | a subtotal for the employee with the worked time and the designation of the group's first row |
| ExcelLogic.Details | adms_wrapper/core/excel_logic.py:112 | the group's rows, unchanged and in order |
| ExcelLogic.SubtotalsDetails | adms_wrapper/core/excel_logic.py:110-131 | the report's detail rows are the employees' groups, one after another |
| ExcelLogic.SubtotalsRows | adms_wrapper/core/excel_logic.py:110-131 | one subtotal per employee, in order, each for that employee's group |
| ExcelLogic.SubtotalsLength | adms_wrapper/core/excel_logic.py:110-131 | rows = grouped rows + one per employee |
| ExcelLogic.WithSubtotals | adms_wrapper/core/excel_logic.py:110-131 | the loop over first-appearance employees emits each group followed by its subtotal |
| ExcelLogic.SubtotalReport | adms_wrapper/core/excel_logic.py:110-131 | length = rows + employees; the detail rows are a permutation of the input; the i-th subtotal is for the i-th employee in first-appearance order, with their worked time and first designation |
| ExcelLogic.GenerateAttendanceSummary | adms_wrapper/core/excel_logic.py:11-134 | the late-checkout summary, returned as it is when empty, otherwise decorated and subtotalled |
| ExcelLogic.WorkedRowFlag | adms_wrapper/core/excel_logic.py:72-77 | a worked, uncapped row is never flagged `absent` or `shift_capped` |
| ExcelLogic.MainReportFacts | adms_wrapper/core/excel_logic.py:11-134 | for usable punches: columns are the summary's plus the six added ones; the rows are subtotalled; no row is flagged `absent` or `shift_capped`; every row gets its device branches |

## Left out

- Database access is not modelled. The shift mappings, the roster of known employees and the branch and designation tables are parameters.
- Not modelled: `fetch_all_data`, `export_to_excel`, `write_excel` (the spreadsheet fills) and the web routes. These are I/O.
- Durations are whole seconds and timestamps have no microseconds. The text rendering of durations is not modelled (`"0 days 08:10:00"`, `"8:00:00"`, `"-1 day, ..."`, the `split(".")`). The subtotal's `"0:00:00"` is the integer 0.
- The text of a shift template's start and end is supplied by the caller, and the code does not fix its form. The model compares against three forms: `HH:MM:SS`, an unpadded `H:MM:SS` and `0 days HH:MM:SS`.
- `str(timestamp)[11:16]` is modelled directly as the `HH:MM` of the timestamp. This holds for the four-digit years pandas timestamps cover.
- Employee ids, user ids and serial numbers are strings. The `str()` conversions keep them as they are. A mismatch between integer and string ids is not modelled.
- `pd.to_datetime(...)` parsing of dates and shift times is not modelled. Shift times in the cap/absence pipeline are seconds after midnight. In the late-checkout pipeline they are a time or a whole-second timedelta.
- AdmsMain.SortByTs: pandas' default sort is unstable. The model sorts stably, so an employee's punches with equal timestamps keep their input order. Only the devices picked on such ties could differ.
- DataProcessing.GenerateCompleteRecords: the code walks a Python set of employees. The model walks them in first-appearance order. The output is proved already sorted, so after the final sort the rows are the same either way. The column order is not: it follows the first record, which in the code belongs to whichever employee the set yields first, and in the model to the employee with the smallest id. An absent first record gives `time_spent` before `work_status`, a worked one the reverse.
- Records.ColumnsOf: the column order of a frame built from records depends on its first record. The model uses the two orders the code produces.
- Crash paths are preconditions; they are not modelled as errors:
  - `Timeable`: no shift and no checkout on a weekday raises `None > timedelta`.
  - `Usable`: a shift end that is a string, or a timedelta outside one day, cannot be compared or converted.
  - `Lookup`: a mapping table with no rows raises `KeyError`.
- ExcelLogic.TimeFlag: the `except Exception` of `get_shift_info` is not modelled. With text shift times and timestamp ends, no comparison there raises.
- Dead branches are not modelled separately. These are the empty `processed_entries` and empty grouped-summary checks in both pipelines. `DataProcessing.WorkedSummaryNonEmpty` and `AdmsMain.MainSummaryFacts` show they cannot be taken.
- The `pd.isna(emp_id)` tests of the lookups are not modelled: ids are never missing here.
- Not modelled: the date filters of `app.py` and `main.py`, which repeat `main`'s.
- The `get_status` helper of `app.py` and the delete/insert helpers of `db_queries.py` are not part of this model.
