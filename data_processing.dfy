/**
 * The cap/absence pipeline of `adms_wrapper/core/data_processing.py`.
 *
 * Punches are tagged with their calendar day, grouped per employee and day,
 * timed against the employee's shift (capped at shift end + 8 h, or at a flat
 * 8 h without a shift), and the result is padded with `absent` rows for every
 * non-Sunday day of the reporting range.
 */
module DataProcessing {
  import opened Wrappers
  import opened Calendar
  import opened Records
  import Text
  import Partition
  import Grouping

  /** A shift as the code uses it: `.time()` of its start and end, in seconds after midnight. */
  datatype Shift = Shift(name: string, start: int, end: int)

  /** One row of `get_user_shift_mappings()`. */
  datatype ShiftMapping = ShiftMapping(userId: string, name: string, start: int, end: int)

  function MappingUser(m: ShiftMapping): string {
    m.userId
  }

  function MappingShift(m: ShiftMapping): Shift {
    Shift(m.name, m.start, m.end)
  }

  /** The shift table keyed by user id; a user listed twice keeps the shift of its last row. */
  function ShiftTable(mappings: seq<ShiftMapping>): (shifts: map<string, Shift>)
    ensures Partition.LastWriteWins(mappings, MappingUser, MappingShift, shifts)
  {
    Partition.LastWrites(mappings, MappingUser, MappingShift)
  }

  /**
   * `get_shift_mappings`: the shift table keyed by `user_id`; a user listed
   * twice keeps the shift of its last row.
   */
  method GetShiftMappings(mappings: seq<ShiftMapping>) returns (shifts: map<string, Shift>)
    ensures shifts == ShiftTable(mappings)
    ensures Partition.LastWriteWins(mappings, MappingUser, MappingShift, shifts)
  {
    shifts := map[];
    var i := 0;
    while i < |mappings|
      invariant 0 <= i <= |mappings|
      invariant shifts == ShiftTable(mappings[..i])
    {
      var mapping := mappings[i];
      Partition.PrefixStep(mappings, i);
      shifts := shifts[mapping.userId := Shift(mapping.name, mapping.start, mapping.end)];
      i := i + 1;
    }
    assert mappings[..|mappings|] == mappings;
  }

  /** `is_weekend`: the date is a Sunday. */
  function IsWeekend(day: int): (sunday: bool)
    ensures sunday <==> Weekday(day) == SUNDAY
    ensures sunday <==> day % 7 == 3
  {
    Weekday(day) == SUNDAY
  }

  /**
   * The result triple of `calculate_time_spent_and_flag`: time spent in
   * seconds (`None` where the code renders `str(None)`), `shift_capped`, and
   * the effective end.
   */
  datatype Timing = Timing(spent: Option<int>, capped: bool, end: Option<int>)

  /** `cap_dt`: the shift's end on the row's own date, plus 8 hours. */
  function CapTime(day: int, shift: Shift): int {
    DayStart(day) + shift.end + EIGHT_HOURS
  }

  /**
   * The one row the code cannot time: a weekday row of an employee without
   * a shift that has a start but no end (`None > timedelta` raises).
   */
  predicate Timeable(employee: string, day: int, start: Option<int>, end: Option<int>, shifts: map<string, Shift>) {
    start.Some? && end.None? && !IsWeekend(day) ==> employee in shifts
  }

  /**
   * `calculate_time_spent_and_flag`.
   * - No start: nothing worked, not capped, end untouched.
   * - Sunday: the actual duration (none without a checkout), never capped,
   *   end untouched.
   * - Assigned shift: capped exactly when there is no checkout or the checkout
   *   is at or after `cap_dt` (inclusive); a capped row ends at `cap_dt`; the
   *   time spent is always the effective end minus the start.
   * - No shift: the duration, cut to 8 hours when strictly longer (then
   *   capped); the actual end is kept.
   * Whatever the case, when both punches exist the time spent never exceeds
   * the actual duration, and an uncapped row reports exactly that duration.
   */
  function CalculateTimeSpentAndFlag(employee: string, day: int, start: Option<int>, end: Option<int>,
                                     shifts: map<string, Shift>): (r: Timing)
    requires Timeable(employee, day, start, end, shifts)
    ensures start.None? ==> r == Timing(Some(0), false, end)
    ensures start.Some? && IsWeekend(day) ==>
              && !r.capped && r.end == end
              && r.spent == (if end.Some? then Some(end.value - start.value) else None)
    ensures start.Some? && !IsWeekend(day) && employee in shifts ==>
              var cap := CapTime(day, shifts[employee]);
              && (r.capped <==> end.None? || end.value >= cap)
              && r.end == Some(if r.capped then cap else end.value)
              && r.spent == Some(r.end.value - start.value)
    ensures start.Some? && !IsWeekend(day) && employee !in shifts ==>
              && (r.capped <==> end.value - start.value > EIGHT_HOURS)
              && r.end == end
              && r.spent.Some? && r.spent.value <= EIGHT_HOURS
              && (r.spent == Some(EIGHT_HOURS) || r.spent == Some(end.value - start.value))
    ensures end.Some? ==> r.spent.Some?
    ensures start.Some? && end.Some? ==> r.spent.value <= end.value - start.value
    ensures start.Some? && end.Some? && !r.capped ==> r.spent == Some(end.value - start.value) && r.end == end
  {
    if start.None? then Timing(Some(0), false, end)
    else if IsWeekend(day) then Timing(if end.Some? then Some(end.value - start.value) else None, false, end)
    else if employee in shifts then
      var cap := CapTime(day, shifts[employee]);
      if end.None? then Timing(Some(cap - start.value), true, Some(cap))
      else if end.value >= cap then Timing(Some(cap - start.value), true, Some(cap))
      else Timing(Some(end.value - start.value), false, end)
    else
      var diff := end.value - start.value;
      if diff > EIGHT_HOURS then Timing(Some(EIGHT_HOURS), true, end)
      else Timing(Some(diff), false, end)
  }

  /** The shift's start is parsed but never affects the result (only the unused `expected_duration` reads it). */
  lemma ShiftStartIsIgnored(employee: string, day: int, start: Option<int>, end: Option<int>,
                            shifts: map<string, Shift>, otherStart: int)
    requires Timeable(employee, day, start, end, shifts)
    requires employee in shifts
    ensures var s := shifts[employee];
            CalculateTimeSpentAndFlag(employee, day, start, end, shifts[employee := Shift(s.name, otherStart, s.end)])
            == CalculateTimeSpentAndFlag(employee, day, start, end, shifts)
  {
  }

  /**
   * Both shift times are anchored to the row's own date, so for an overnight
   * shift (22:00-06:00) a 22:30 start with no checkout is capped at 14:00 of
   * the same date: a time spent of minus eight and a half hours.
   */
  lemma OvernightShiftWithoutCheckoutIsNegative(day: int)
    requires !IsWeekend(day)
    ensures var shifts := map["NIGHT" := Shift("NIGHT", 22 * 3600, 6 * 3600)];
            var r := CalculateTimeSpentAndFlag("NIGHT", day, Some(DayStart(day) + 22 * 3600 + 1800), None, shifts);
            r.capped && r.spent == Some(-(8 * 3600 + 1800))
  {
  }

  /** `process_attendance_entries`: every punch, in order, tagged with its calendar date. */
  method ProcessAttendanceEntries(punches: seq<Punch>) returns (entries: seq<Entry>)
    ensures entries == CalendarEntries(punches)
    ensures |entries| == |punches|
    ensures forall i :: 0 <= i < |punches| ==>
              entries[i] == Entry(punches[i].employee, punches[i].ts, punches[i].sn, DayOf(punches[i].ts))
  {
    entries := [];
    var i := 0;
    while i < |punches|
      invariant 0 <= i <= |punches|
      invariant |entries| == i
      invariant forall j :: 0 <= j < i ==>
                  entries[j] == Entry(punches[j].employee, punches[j].ts, punches[j].sn, DayOf(punches[j].ts))
    {
      var p := punches[i];
      entries := entries + [Entry(p.employee, p.ts, p.sn, DayOf(p.ts))];
      i := i + 1;
    }
  }

  /** The entries `ProcessAttendanceEntries` produces, as a function. */
  function CalendarEntries(punches: seq<Punch>): (entries: seq<Entry>)
    ensures |entries| == |punches|
    ensures forall i :: 0 <= i < |punches| ==> entries[i].day == DayOf(punches[i].ts)
  {
    seq(|punches|, i requires 0 <= i < |punches| =>
      Entry(punches[i].employee, punches[i].ts, punches[i].sn, DayOf(punches[i].ts)))
  }

  /* ---------------------------------------------------------------------- */
  /* Absent rows                                                             */

  /** One employee's absent rows, one per listed day. */
  function AbsentRow(employee: string, days: seq<int>): (rs: seq<Record>)
    ensures |rs| == |days|
    ensures forall j :: 0 <= j < |days| ==> rs[j] == AbsentRecord(employee, days[j])
  {
    seq(|days|, j requires 0 <= j < |days| => AbsentRecord(employee, days[j]))
  }

  /** Absent rows for every roster entry with a non-empty id, in roster order, times every day. */
  function AbsentGrid(roster: seq<string>, days: seq<int>): seq<Record>
    decreases |roster|
  {
    if roster == [] then []
    else
      var id := roster[|roster| - 1];
      AbsentGrid(roster[..|roster| - 1], days) + (if id == "" then [] else AbsentRow(id, days))
  }

  /** Number of roster entries with a non-empty id. */
  function CountIds(roster: seq<string>): nat
    decreases |roster|
  {
    if roster == [] then 0
    else CountIds(roster[..|roster| - 1]) + (if roster[|roster| - 1] == "" then 0 else 1)
  }

  /** A row of the absent grid, as a predicate on the row. */
  predicate AbsentCell(roster: seq<string>, days: seq<int>, x: Record) {
    x == AbsentRecord(x.employee, x.day) && x.employee in roster && x.employee != "" && x.day in days
  }

  /**
   * The absent grid holds exactly the absent records of (non-empty roster id,
   * listed day), one block of `|days|` rows per non-empty id.
   */
  lemma {:induction false} AbsentGridContents(roster: seq<string>, days: seq<int>)
    ensures forall x :: x in AbsentGrid(roster, days) <==> AbsentCell(roster, days, x)
    ensures |AbsentGrid(roster, days)| == CountIds(roster) * |days|
    decreases |roster|
  {
    if roster != [] {
      var init, id := roster[..|roster| - 1], roster[|roster| - 1];
      AbsentGridContents(init, days);
      Partition.LastSplit(roster);
      var row := if id == "" then [] else AbsentRow(id, days);
      assert AbsentGrid(roster, days) == AbsentGrid(init, days) + row;
      forall x ensures x in AbsentGrid(roster, days) <==> AbsentCell(roster, days, x) {
        AbsentGridStep(init, id, days, x);
      }
      BlockCount(|AbsentGrid(init, days)|, |AbsentGrid(roster, days)|,
                 CountIds(init), CountIds(roster), |days|, id != "");
    }
  }

  lemma AbsentGridStep(init: seq<string>, id: string, days: seq<int>, x: Record)
    ensures var row := if id == "" then [] else AbsentRow(id, days);
            x in row <==> AbsentCell([id], days, x)
    ensures AbsentCell(init + [id], days, x) <==> AbsentCell(init, days, x) || AbsentCell([id], days, x)
  {
    var row := if id == "" then [] else AbsentRow(id, days);
    if x in row {
      var j :| 0 <= j < |row| && row[j] == x;
      assert days[j] in days;
    }
    if AbsentCell([id], days, x) {
      var j :| 0 <= j < |days| && days[j] == x.day;
      assert row[j] == x;
    }
  }

  /**
   * `generate_absent_days_for_date_range`, with the roster (the employee ids
   * of `get_comprehensive_employee_data()`, `""` where a row lacks one) as a
   * parameter: for each roster entry with a non-empty id, an absent row for
   * every non-Sunday day from `startDay` to `endDay`.
   */
  method GenerateAbsentDaysForDateRange(startDay: int, endDay: int, roster: seq<string>)
    returns (records: seq<Record>)
    ensures records == AbsentGrid(roster, WorkingDays(startDay, endDay))
    ensures roster == [] ==> records == []
  {
    if roster == [] {
      return [];
    }
    var days := WorkingDays(startDay, endDay);
    records := [];
    var i := 0;
    while i < |roster|
      invariant 0 <= i <= |roster|
      invariant records == AbsentGrid(roster[..i], days)
    {
      var employee := roster[i];
      Partition.PrefixStep(roster, i);
      if employee != "" {
        var row := GenerateAbsentRow(employee, days);
        records := records + row;
      }
      i := i + 1;
    }
    assert roster[..|roster|] == roster;
  }

  /** The inner loop of `generate_absent_days_for_date_range`: one employee's absent rows, day by day. */
  method GenerateAbsentRow(employee: string, days: seq<int>) returns (records: seq<Record>)
    ensures records == AbsentRow(employee, days)
  {
    records := [];
    var j := 0;
    while j < |days|
      invariant 0 <= j <= |days|
      invariant records == AbsentRow(employee, days[..j])
    {
      records := records + [AbsentRecord(employee, days[j])];
      j := j + 1;
    }
    assert days[..|days|] == days;
  }

  /* ---------------------------------------------------------------------- */
  /* Complete records                                                        */

  function EmployeeOf(r: Record): string {
    r.employee
  }

  /** `employee_data[employee_data["day"] == day]`: the worked rows of one employee and day. */
  function DayData(worked: seq<Record>, employee: string, day: int): (rs: seq<Record>)
    ensures forall x :: x in rs <==> x in worked && RecordKey(x) == Key(employee, day)
  {
    Partition.Select(worked, RecordKey, Key(employee, day))
  }

  /** What one (employee, day) contributes: its worked rows, or else one absent row. */
  function DayRecords(worked: seq<Record>, employee: string, day: int): seq<Record> {
    var dayData := DayData(worked, employee, day);
    if dayData != [] then dayData else [AbsentRecord(employee, day)]
  }

  /** One employee's records over the listed days. */
  function EmployeeRecords(worked: seq<Record>, employee: string, days: seq<int>): seq<Record>
    decreases |days|
  {
    if days == [] then []
    else EmployeeRecords(worked, employee, days[..|days| - 1]) + DayRecords(worked, employee, days[|days| - 1])
  }

  /** The records of the listed employees, skipping empty ids. */
  function Complete(worked: seq<Record>, employees: seq<string>, days: seq<int>): seq<Record>
    decreases |employees|
  {
    if employees == [] then []
    else
      var employee := employees[|employees| - 1];
      Complete(worked, employees[..|employees| - 1], days)
        + (if employee == "" then [] else EmployeeRecords(worked, employee, days))
  }

  /** Earliest day among non-empty rows (`worked_summary["day"].min()`). */
  function MinDay(rs: seq<Record>): (d: int)
    requires rs != []
    ensures forall i :: 0 <= i < |rs| ==> d <= rs[i].day
    ensures exists i :: 0 <= i < |rs| && rs[i].day == d
    decreases |rs|
  {
    if |rs| == 1 then rs[0].day
    else
      var d := MinDay(rs[1..]);
      if rs[0].day <= d then rs[0].day else d
  }

  /** Latest day among non-empty rows (`worked_summary["day"].max()`). */
  function MaxDay(rs: seq<Record>): (d: int)
    requires rs != []
    ensures forall i :: 0 <= i < |rs| ==> rs[i].day <= d
    ensures exists i :: 0 <= i < |rs| && rs[i].day == d
    decreases |rs|
  {
    if |rs| == 1 then rs[0].day
    else
      var d := MaxDay(rs[1..]);
      if rs[0].day >= d then rs[0].day else d
  }

  /** The report's days: the given inclusive range when both ends are given, else the worked range; Sundays dropped. */
  function ReportDays(worked: seq<Record>, startDay: Option<int>, endDay: Option<int>): seq<int>
    requires worked != []
  {
    if startDay.Some? && endDay.Some? then WorkingDays(startDay.value, endDay.value)
    else WorkingDays(MinDay(worked), MaxDay(worked))
  }

  /** The records `generate_complete_records` returns, as a function. */
  function CompleteRecords(worked: seq<Record>, startDay: Option<int>, endDay: Option<int>, roster: seq<string>): seq<Record> {
    if worked == [] then
      if startDay.Some? && endDay.Some? then AbsentGrid(roster, WorkingDays(startDay.value, endDay.value)) else []
    else Complete(worked, Partition.Keys(worked, EmployeeOf), ReportDays(worked, startDay, endDay))
  }

  /**
   * `generate_complete_records(worked_summary, start_date, end_date)`.  The
   * employees of the worked rows are visited in order of first appearance
   * (the code walks a Python set, whose order the final sort makes irrelevant).
   */
  method GenerateCompleteRecords(worked: seq<Record>, startDay: Option<int>, endDay: Option<int>, roster: seq<string>)
    returns (records: seq<Record>)
    ensures records == CompleteRecords(worked, startDay, endDay, roster)
  {
    if worked == [] {
      if startDay.Some? && endDay.Some? {
        records := GenerateAbsentDaysForDateRange(startDay.value, endDay.value, roster);
      } else {
        records := [];
      }
      return;
    }
    var days := ReportDays(worked, startDay, endDay);
    var employees := Partition.Keys(worked, EmployeeOf);
    records := GenerateEmployeesRecords(worked, employees, days);
  }

  /** The outer loop of `generate_complete_records`: employee by employee. */
  method GenerateEmployeesRecords(worked: seq<Record>, employees: seq<string>, days: seq<int>)
    returns (records: seq<Record>)
    ensures records == Complete(worked, employees, days)
  {
    records := [];
    var i := 0;
    while i < |employees|
      invariant 0 <= i <= |employees|
      invariant records == Complete(worked, employees[..i], days)
    {
      var employee := employees[i];
      Partition.PrefixStep(employees, i);
      if employee != "" {
        var employeeRecords := GenerateEmployeeRecords(worked, employee, days);
        records := records + employeeRecords;
      }
      i := i + 1;
    }
    assert employees[..|employees|] == employees;
  }

  /** The inner loop of `generate_complete_records`: one employee's rows, day by day. */
  method GenerateEmployeeRecords(worked: seq<Record>, employee: string, days: seq<int>)
    returns (records: seq<Record>)
    ensures records == EmployeeRecords(worked, employee, days)
  {
    records := [];
    var j := 0;
    while j < |days|
      invariant 0 <= j <= |days|
      invariant records == EmployeeRecords(worked, employee, days[..j])
    {
      Partition.PrefixStep(days, j);
      var dayData := DayData(worked, employee, days[j]);
      if dayData != [] {
        records := records + dayData;
      } else {
        records := records + [AbsentRecord(employee, days[j])];
      }
      j := j + 1;
    }
    assert days[..|days|] == days;
  }

  /* ---------------------------------------------------------------------- */
  /* What the complete records hold                                          */

  /** Employee ids in strictly increasing string order. */
  ghost predicate IdsSorted(ids: seq<string>) {
    forall i, j :: 0 <= i < j < |ids| ==> Text.Lt(ids[i], ids[j])
  }

  lemma SortedByKeyPrefix(rs: seq<Record>, n: nat)
    requires SortedByKey(rs) && n <= |rs|
    ensures SortedByKey(rs[..n])
  {
    forall i, j | 0 <= i < j < n ensures KeyLt(RecordKey(rs[..n][i]), RecordKey(rs[..n][j])) {
      assert rs[..n][i] == rs[i] && rs[..n][j] == rs[j];
    }
  }

  /** With one row per key, a day has at most one worked row. */
  lemma {:induction false} DayDataAtMostOne(worked: seq<Record>, employee: string, day: int)
    requires SortedByKey(worked)
    ensures |DayData(worked, employee, day)| <= 1
    decreases |worked|
  {
    if worked != [] {
      var init, x := worked[..|worked| - 1], worked[|worked| - 1];
      var k := Key(employee, day);
      SortedByKeyPrefix(worked, |worked| - 1);
      DayDataAtMostOne(init, employee, day);
      assert DayData(worked, employee, day) == DayData(init, employee, day) + (if RecordKey(x) == k then [x] else []);
      if RecordKey(x) == k && DayData(init, employee, day) != [] {
        var y := DayData(init, employee, day)[0];
        assert y in init;
        var i :| 0 <= i < |init| && init[i] == y;
        assert worked[i] == y;
        SortedByKeyUnique(worked, i, |worked| - 1);
        assert false;
      }
    }
  }

  /** The single row a listed day contributes: its worked row, or else an absent row. */
  function DayRecord(worked: seq<Record>, employee: string, day: int): Record {
    var dayData := DayData(worked, employee, day);
    if dayData != [] then dayData[0] else AbsentRecord(employee, day)
  }

  /**
   * A day contributes exactly one row, keyed by that employee and day: the
   * worked row when there is one, otherwise an absent row.
   */
  lemma DayRecordsSingle(worked: seq<Record>, employee: string, day: int)
    requires SortedByKey(worked)
    ensures DayRecords(worked, employee, day) == [DayRecord(worked, employee, day)]
    ensures RecordKey(DayRecord(worked, employee, day)) == Key(employee, day)
    ensures HasKey(worked, Key(employee, day)) ==> DayRecord(worked, employee, day) in worked
    ensures !HasKey(worked, Key(employee, day)) ==> DayRecord(worked, employee, day) == AbsentRecord(employee, day)
    ensures forall x :: x in worked && RecordKey(x) == Key(employee, day) ==> DayRecord(worked, employee, day) == x
  {
    var dayData := DayData(worked, employee, day);
    DayDataAtMostOne(worked, employee, day);
    if dayData != [] {
      assert dayData[0] in dayData;
    }
    if HasKey(worked, Key(employee, day)) {
      var i :| 0 <= i < |worked| && RecordKey(worked[i]) == Key(employee, day);
      assert worked[i] in dayData;
    }
    forall x | x in worked && RecordKey(x) == Key(employee, day)
      ensures DayRecord(worked, employee, day) == x
    {
      assert x in dayData;
    }
  }

  /** One employee's rows are the day records of the listed days, in day order. */
  lemma {:induction false} EmployeeRecordsIndexed(worked: seq<Record>, employee: string, days: seq<int>)
    requires SortedByKey(worked)
    ensures |EmployeeRecords(worked, employee, days)| == |days|
    ensures forall i :: 0 <= i < |days| ==>
              EmployeeRecords(worked, employee, days)[i] == DayRecord(worked, employee, days[i])
    decreases |days|
  {
    if days != [] {
      var init, d := days[..|days| - 1], days[|days| - 1];
      EmployeeRecordsIndexed(worked, employee, init);
      DayRecordsSingle(worked, employee, d);
      var front := EmployeeRecords(worked, employee, init);
      assert EmployeeRecords(worked, employee, days) == front + [DayRecord(worked, employee, d)];
      Partition.LastSplit(days);
      DayRecordsIndexedStep(worked, employee, front, init, d);
    }
  }

  lemma DayRecordsIndexedStep(worked: seq<Record>, employee: string, front: seq<Record>, init: seq<int>, d: int)
    requires |front| == |init|
    requires forall i :: 0 <= i < |init| ==> front[i] == DayRecord(worked, employee, init[i])
    ensures var rs, days := front + [DayRecord(worked, employee, d)], init + [d];
            |rs| == |days| && forall i :: 0 <= i < |days| ==> rs[i] == DayRecord(worked, employee, days[i])
  {
  }

  /** Joining two sorted runs, every key of the first below every key of the second, stays sorted. */
  lemma SortedConcat(a: seq<Record>, b: seq<Record>)
    requires SortedByKey(a) && SortedByKey(b)
    requires forall i, j :: 0 <= i < |a| && 0 <= j < |b| ==> KeyLt(RecordKey(a[i]), RecordKey(b[j]))
    ensures SortedByKey(a + b)
  {
    var c := a + b;
    forall i, j | 0 <= i < j < |c| ensures KeyLt(RecordKey(c[i]), RecordKey(c[j])) {
      if j < |a| {
        assert c[i] == a[i] && c[j] == a[j];
      } else if i >= |a| {
        assert c[i] == b[i - |a|] && c[j] == b[j - |a|];
      } else {
        assert c[i] == a[i] && c[j] == b[j - |a|];
      }
    }
  }

  /** A row `Complete` emits: the day record of a listed non-empty id and a listed day. */
  ghost predicate CompleteRow(worked: seq<Record>, employees: seq<string>, days: seq<int>, x: Record) {
    x.employee in employees && x.employee != "" && x.day in days && x == DayRecord(worked, x.employee, x.day)
  }

  /** One employee's block: a row per listed day, keyed by that day, sorted when the days increase. */
  lemma EmployeeBlock(worked: seq<Record>, employee: string, days: seq<int>)
    requires SortedByKey(worked)
    ensures var b := EmployeeRecords(worked, employee, days);
            && |b| == |days|
            && (forall j :: 0 <= j < |days| ==> RecordKey(b[j]) == Key(employee, days[j]))
            && (StrictlyIncreasing(days) ==> SortedByKey(b))
            && (forall x :: x in b <==> x.employee == employee && x.day in days && x == DayRecord(worked, employee, x.day))
  {
    EmployeeRecordsIndexed(worked, employee, days);
    var b := EmployeeRecords(worked, employee, days);
    forall j | 0 <= j < |days| ensures RecordKey(b[j]) == Key(employee, days[j]) {
      DayRecordsSingle(worked, employee, days[j]);
    }
    forall x ensures x in b <==> x.employee == employee && x.day in days && x == DayRecord(worked, employee, x.day) {
      if x.employee == employee && x.day in days && x == DayRecord(worked, employee, x.day) {
        var j :| 0 <= j < |days| && days[j] == x.day;
        assert b[j] == x;
      }
    }
  }

  lemma IdsSortedPrefix(ids: seq<string>, init: seq<string>, last: string)
    requires IdsSorted(ids) && ids == init + [last]
    ensures IdsSorted(init)
    ensures forall s :: s in init ==> Text.Lt(s, last)
  {
    forall i, j | 0 <= i < j < |init| ensures Text.Lt(init[i], init[j]) {
      assert init[i] == ids[i] && init[j] == ids[j];
    }
    forall s | s in init ensures Text.Lt(s, last) {
      var i :| 0 <= i < |init| && init[i] == s;
      assert ids[i] == s && ids[|init|] == last;
    }
  }

  /** The rows of `Complete` are exactly the day records of a listed non-empty id and a listed day. */
  lemma {:induction false} CompleteMembers(worked: seq<Record>, employees: seq<string>, days: seq<int>)
    requires SortedByKey(worked)
    ensures forall x :: x in Complete(worked, employees, days) <==> CompleteRow(worked, employees, days, x)
    decreases |employees|
  {
    if employees != [] {
      var init, e := employees[..|employees| - 1], employees[|employees| - 1];
      Partition.LastSplit(employees);
      CompleteMembers(worked, init, days);
      EmployeeBlock(worked, e, days);
    }
  }

  lemma MulSucc(c: int, d: int)
    ensures (c + 1) * d == c * d + d
  {
  }

  /** One employee's block has a row per listed day. */
  lemma {:induction false} EmployeeRecordsLength(worked: seq<Record>, employee: string, days: seq<int>)
    requires SortedByKey(worked)
    ensures |EmployeeRecords(worked, employee, days)| == |days|
    decreases |days|
  {
    if days != [] {
      EmployeeRecordsLength(worked, employee, days[..|days| - 1]);
      DayRecordsSingle(worked, employee, days[|days| - 1]);
    }
  }

  /** `Complete` holds one block of `|days|` rows per non-empty id. */
  lemma {:induction false} CompleteLength(worked: seq<Record>, employees: seq<string>, days: seq<int>)
    requires SortedByKey(worked)
    ensures |Complete(worked, employees, days)| == CountIds(employees) * |days|
    decreases |employees|
  {
    if employees != [] {
      var init, e := employees[..|employees| - 1], employees[|employees| - 1];
      CompleteLength(worked, init, days);
      EmployeeRecordsLength(worked, e, days);
      BlockCount(|Complete(worked, init, days)|, |Complete(worked, employees, days)|,
                 CountIds(init), CountIds(employees), |days|, e != "");
    }
  }

  /** One more block of `n` rows, for one more counted id, keeps `rows == count * n`. */
  lemma BlockCount(rows: int, rows': int, count: int, count': int, n: int, added: bool)
    requires rows == count * n
    requires rows' == rows + (if added then n else 0)
    requires count' == count + (if added then 1 else 0)
    ensures rows' == count' * n
  {
    MulSucc(count, n);
  }

  /** Over sorted ids and increasing days, `Complete` is sorted by `(employee_id, day)`. */
  lemma {:induction false} CompleteSorted(worked: seq<Record>, employees: seq<string>, days: seq<int>)
    requires SortedByKey(worked) && StrictlyIncreasing(days) && IdsSorted(employees)
    ensures SortedByKey(Complete(worked, employees, days))
    decreases |employees|
  {
    if employees != [] {
      var init, e := employees[..|employees| - 1], employees[|employees| - 1];
      Partition.LastSplit(employees);
      IdsSortedPrefix(employees, init, e);
      CompleteSorted(worked, init, days);
      CompleteMembers(worked, init, days);
      var front := Complete(worked, init, days);
      var back := if e == "" then [] else EmployeeRecords(worked, e, days);
      EmployeeBlock(worked, e, days);
      forall i, j | 0 <= i < |front| && 0 <= j < |back| ensures KeyLt(RecordKey(front[i]), RecordKey(back[j])) {
        assert front[i] in front;
      }
      SortedConcat(front, back);
    }
  }

  /** The employees of key-sorted rows, in order of first appearance, are in increasing id order. */
  lemma {:induction false} KeysSorted(rs: seq<Record>)
    requires SortedByKey(rs)
    ensures IdsSorted(Partition.Keys(rs, EmployeeOf))
    decreases |rs|
  {
    if rs != [] {
      var init, x := rs[..|rs| - 1], rs[|rs| - 1];
      SortedByKeyPrefix(rs, |rs| - 1);
      KeysSorted(init);
      var ks := Partition.Keys(init, EmployeeOf);
      if x.employee !in ks {
        forall i | 0 <= i < |ks| ensures Text.Lt(ks[i], x.employee) {
          assert ks[i] in ks;
          var j :| 0 <= j < |init| && EmployeeOf(init[j]) == ks[i];
          assert rs[j] == init[j];
          assert KeyLt(RecordKey(rs[j]), RecordKey(rs[|rs| - 1]));
        }
        var ks' := ks + [x.employee];
        forall i, j | 0 <= i < j < |ks'| ensures Text.Lt(ks'[i], ks'[j]) {
          if j < |ks| {
            assert ks'[i] == ks[i] && ks'[j] == ks[j];
          }
        }
      }
    }
  }

  /* ---------------------------------------------------------------------- */
  /* The summary                                                             */

  /** One `groupby(["employee_id", "day"])` row with its timing columns filled in. */
  function WorkedRow(g: Grouping.Group, shifts: map<string, Shift>): (r: Record)
    ensures RecordKey(r) == Grouping.GroupKey(g) && r.status == Worked
    ensures r.start == Some(g.start) && r.startSn == g.startSn && r.endSn == g.endSn
    ensures r.timeSpent <= g.end - g.start
    ensures !r.capped ==> r.timeSpent == g.end - g.start && r.end == Some(g.end)
    ensures r.capped ==> !IsWeekend(g.day)
    ensures g.employee !in shifts ==> r.timeSpent <= EIGHT_HOURS || IsWeekend(g.day)
  {
    var t := CalculateTimeSpentAndFlag(g.employee, g.day, Some(g.start), Some(g.end), shifts);
    Record(g.employee, g.day, Some(g.start), t.end, g.startSn, g.endSn, t.spent.value, Worked, t.capped)
  }

  /** `worked_summary`: the grouped rows, timed, in the sorted key order of the grouping. */
  function WorkedSummary(entries: seq<Entry>, shifts: map<string, Shift>): (ws: seq<Record>)
    ensures |ws| == |Grouping.GroupBy(entries)|
    ensures forall i :: 0 <= i < |ws| ==> ws[i] == WorkedRow(Grouping.GroupBy(entries)[i], shifts)
  {
    var groups := Grouping.GroupBy(entries);
    seq(|groups|, i requires 0 <= i < |groups| => WorkedRow(groups[i], shifts))
  }

  /** The worked summary is sorted by key and has a row exactly for each key that has punches. */
  lemma WorkedSummaryFacts(entries: seq<Entry>, shifts: map<string, Shift>)
    ensures SortedByKey(WorkedSummary(entries, shifts))
    ensures forall k :: HasKey(WorkedSummary(entries, shifts), k) <==> Grouping.Occurs(entries, k)
  {
    var ws := WorkedSummary(entries, shifts);
    var keys := Grouping.GroupKeys(entries);
    forall i | 0 <= i < |ws| ensures RecordKey(ws[i]) == keys[i] {
      assert RecordKey(ws[i]) == Grouping.GroupKey(Grouping.GroupBy(entries)[i]);
    }
    KeyedRows(ws, keys);
  }

  /** `_get_absent_days_fallback`: the roster's absent grid when both dates are given, else an empty summary. */
  function AbsentFallback(startDay: Option<int>, endDay: Option<int>, roster: seq<string>): Table {
    if startDay.Some? && endDay.Some? then Table(SUMMARY_COLUMNS, AbsentGrid(roster, WorkingDays(startDay.value, endDay.value)))
    else Table(SUMMARY_COLUMNS, [])
  }

  /** The summary `process_attendance_summary` returns, as a function of its inputs. */
  function Summary(columnsPresent: bool, punches: seq<Punch>, shifts: map<string, Shift>,
                   startDay: Option<int>, endDay: Option<int>, roster: seq<string>): Table {
    if !columnsPresent || punches == [] then AbsentFallback(startDay, endDay, roster)
    else
      var worked := WorkedSummary(CalendarEntries(punches), shifts);
      var complete := CompleteRecords(worked, startDay, endDay, roster);
      Table(ColumnsOf(complete), complete)
  }

  /**
   * `process_attendance_summary`.  `columnsPresent` says whether the
   * attendance rows carry `employee_id`, `timestamp` and `sn`; the shift
   * mappings and the roster of known employees are what the database would
   * return.  The final `sort_values` leaves the rows where they are:
   * `SummaryIsSorted` shows they are already in `(employee_id, day)` order.
   */
  method ProcessAttendanceSummary(columnsPresent: bool, attendances: seq<Punch>, mappings: seq<ShiftMapping>,
                                  startDay: Option<int>, endDay: Option<int>, roster: seq<string>)
    returns (summary: Table)
    ensures summary == Summary(columnsPresent, attendances, ShiftTable(mappings), startDay, endDay, roster)
  {
    if !columnsPresent || attendances == [] {
      if startDay.Some? && endDay.Some? {
        var absent := GenerateAbsentDaysForDateRange(startDay.value, endDay.value, roster);
        return Table(SUMMARY_COLUMNS, absent);
      }
      return Table(SUMMARY_COLUMNS, []);
    }
    var shifts := GetShiftMappings(mappings);
    var entries := ProcessAttendanceEntries(attendances);
    var groups := Grouping.GroupBy(entries);
    var worked := seq(|groups|, i requires 0 <= i < |groups| => WorkedRow(groups[i], shifts));
    assert worked == WorkedSummary(entries, shifts);
    var complete := GenerateCompleteRecords(worked, startDay, endDay, roster);
    summary := Table(ColumnsOf(complete), complete);
  }

  /** The days a summary covers: the given range, or else the range of the worked days; Sundays excluded. */
  function SummaryDays(punches: seq<Punch>, shifts: map<string, Shift>, startDay: Option<int>, endDay: Option<int>): seq<int>
    requires punches != []
  {
    var entries := CalendarEntries(punches);
    Grouping.GroupBySortedAndComplete(entries);
    ReportDays(WorkedSummary(entries, shifts), startDay, endDay)
  }

  /** Someone with this id punched. */
  ghost predicate Punched(punches: seq<Punch>, employee: string) {
    exists i :: 0 <= i < |punches| && punches[i].employee == employee
  }

  /**
   * Rows whose keys are exactly the keys of the calendar entries belong to
   * exactly the employees who punched.
   */
  lemma RowEmployees(punches: seq<Punch>, entries: seq<Entry>, ws: seq<Record>, e: string)
    requires entries == CalendarEntries(punches)
    requires forall k :: HasKey(ws, k) <==> Grouping.Occurs(entries, k)
    ensures e in Partition.Keys(ws, EmployeeOf) <==> Punched(punches, e)
  {
    if e in Partition.Keys(ws, EmployeeOf) {
      var i :| 0 <= i < |ws| && EmployeeOf(ws[i]) == e;
      assert HasKey(ws, RecordKey(ws[i]));
      var j :| 0 <= j < |entries| && Grouping.EntryKey(entries[j]) == RecordKey(ws[i]);
      assert punches[j].employee == e;
    }
    if Punched(punches, e) {
      var j :| 0 <= j < |punches| && punches[j].employee == e;
      assert Grouping.Occurs(entries, Grouping.EntryKey(entries[j]));
      var i :| 0 <= i < |ws| && RecordKey(ws[i]) == Grouping.EntryKey(entries[j]);
      assert EmployeeOf(ws[i]) == e;
    }
  }

  /** The employees of the worked summary are exactly those who punched. */
  lemma WorkedEmployees(punches: seq<Punch>, shifts: map<string, Shift>)
    ensures forall e :: e in Partition.Keys(WorkedSummary(CalendarEntries(punches), shifts), EmployeeOf) <==> Punched(punches, e)
  {
    var entries := CalendarEntries(punches);
    var ws := WorkedSummary(entries, shifts);
    WorkedSummaryFacts(entries, shifts);
    forall e ensures e in Partition.Keys(ws, EmployeeOf) <==> Punched(punches, e) {
      RowEmployees(punches, entries, ws, e);
    }
  }

  /** Punched days produce worked rows, so the worked summary is never empty for a non-empty input. */
  lemma WorkedSummaryNonEmpty(punches: seq<Punch>, shifts: map<string, Shift>)
    requires punches != []
    ensures WorkedSummary(CalendarEntries(punches), shifts) != []
  {
    Grouping.GroupBySortedAndComplete(CalendarEntries(punches));
  }

  /**
   * When the input has data, the summary is in `(employee_id, day)` order
   * with no key repeated, so the closing `sort_values` keeps the rows where
   * they are.
   */
  lemma SummaryIsSorted(columnsPresent: bool, punches: seq<Punch>, shifts: map<string, Shift>,
                        startDay: Option<int>, endDay: Option<int>, roster: seq<string>)
    requires columnsPresent && punches != []
    ensures SortedByKey(Summary(columnsPresent, punches, shifts, startDay, endDay, roster).rows)
  {
    var ws := WorkedSummary(CalendarEntries(punches), shifts);
    WorkedSummaryFacts(CalendarEntries(punches), shifts);
    WorkedSummaryNonEmpty(punches, shifts);
    KeysSorted(ws);
    CompleteSorted(ws, Partition.Keys(ws, EmployeeOf), ReportDays(ws, startDay, endDay));
  }

  /** What a summary row is: a punching employee's listed day, worked exactly when punched that day. */
  ghost predicate SummaryRow(punches: seq<Punch>, ws: seq<Record>, days: seq<int>, x: Record) {
    && x.employee != "" && Punched(punches, x.employee) && x.day in days
    && (x.status == Worked <==> Grouping.Occurs(CalendarEntries(punches), RecordKey(x)))
    && (x.status == Worked ==> x in ws)
    && (x.status == Absent ==> x == AbsentRecord(x.employee, x.day))
  }

  lemma OneSummaryRow(punches: seq<Punch>, shifts: map<string, Shift>, ws: seq<Record>, days: seq<int>, x: Record)
    requires ws == WorkedSummary(CalendarEntries(punches), shifts)
    requires x in Complete(ws, Partition.Keys(ws, EmployeeOf), days)
    ensures SummaryRow(punches, ws, days, x)
  {
    var employees := Partition.Keys(ws, EmployeeOf);
    WorkedSummaryFacts(CalendarEntries(punches), shifts);
    WorkedEmployees(punches, shifts);
    CompleteMembers(ws, employees, days);
    assert CompleteRow(ws, employees, days, x);
    DayRecordsSingle(ws, x.employee, x.day);
    if x.status == Worked {
      assert x in ws;
      var i :| 0 <= i < |ws| && ws[i] == x;
      assert HasKey(ws, RecordKey(x));
    }
  }

  /**
   * With data, the summary holds only rows of (employee who punched, with a
   * non-empty id) and (listed day): a `worked` row, taken from the worked
   * summary, exactly when that employee punched on that day, otherwise an
   * `absent` row.
   */
  lemma SummaryRows(columnsPresent: bool, punches: seq<Punch>, shifts: map<string, Shift>,
                    startDay: Option<int>, endDay: Option<int>, roster: seq<string>)
    requires columnsPresent && punches != []
    ensures forall x :: x in Summary(columnsPresent, punches, shifts, startDay, endDay, roster).rows ==>
              SummaryRow(punches, WorkedSummary(CalendarEntries(punches), shifts), SummaryDays(punches, shifts, startDay, endDay), x)
  {
    var ws := WorkedSummary(CalendarEntries(punches), shifts);
    var days := SummaryDays(punches, shifts, startDay, endDay);
    WorkedSummaryNonEmpty(punches, shifts);
    assert Summary(columnsPresent, punches, shifts, startDay, endDay, roster).rows == Complete(ws, Partition.Keys(ws, EmployeeOf), days);
    forall x | x in Complete(ws, Partition.Keys(ws, EmployeeOf), days) ensures SummaryRow(punches, ws, days, x) {
      OneSummaryRow(punches, shifts, ws, days, x);
    }
  }

  /** With data, every employee who punched (with a non-empty id) has a row on every listed day. */
  lemma SummaryCovers(columnsPresent: bool, punches: seq<Punch>, shifts: map<string, Shift>,
                      startDay: Option<int>, endDay: Option<int>, roster: seq<string>)
    requires columnsPresent && punches != []
    ensures var rows := Summary(columnsPresent, punches, shifts, startDay, endDay, roster).rows;
            forall e, d :: e != "" && Punched(punches, e) && d in SummaryDays(punches, shifts, startDay, endDay) ==>
              HasKey(rows, Key(e, d))
  {
    var entries := CalendarEntries(punches);
    var ws := WorkedSummary(entries, shifts);
    var days := SummaryDays(punches, shifts, startDay, endDay);
    var employees := Partition.Keys(ws, EmployeeOf);
    WorkedSummaryFacts(entries, shifts);
    WorkedSummaryNonEmpty(punches, shifts);
    WorkedEmployees(punches, shifts);
    CompleteMembers(ws, employees, days);
    var rows := Complete(ws, employees, days);
    forall e, d | e != "" && Punched(punches, e) && d in days ensures HasKey(rows, Key(e, d)) {
      DayRecordsSingle(ws, e, d);
      var x := DayRecord(ws, e, d);
      assert CompleteRow(ws, employees, days, x);
      assert x in rows;
      var i :| 0 <= i < |rows| && rows[i] == x;
    }
  }

  /** With data, the summary has one row per punching employee (non-empty id) per listed day. */
  lemma SummarySize(columnsPresent: bool, punches: seq<Punch>, shifts: map<string, Shift>,
                    startDay: Option<int>, endDay: Option<int>, roster: seq<string>)
    requires columnsPresent && punches != []
    ensures var ws := WorkedSummary(CalendarEntries(punches), shifts);
            |Summary(columnsPresent, punches, shifts, startDay, endDay, roster).rows|
              == CountIds(Partition.Keys(ws, EmployeeOf)) * |SummaryDays(punches, shifts, startDay, endDay)|
  {
    var ws := WorkedSummary(CalendarEntries(punches), shifts);
    WorkedSummaryFacts(CalendarEntries(punches), shifts);
    WorkedSummaryNonEmpty(punches, shifts);
    CompleteLength(ws, Partition.Keys(ws, EmployeeOf), SummaryDays(punches, shifts, startDay, endDay));
  }

  /**
   * No summary row, worked or absent, falls on a Sunday: the day lists skip
   * Sundays, so even a day with punches on a Sunday is left out.
   */
  lemma SummaryHasNoSundays(columnsPresent: bool, punches: seq<Punch>, shifts: map<string, Shift>,
                            startDay: Option<int>, endDay: Option<int>, roster: seq<string>)
    ensures forall x :: x in Summary(columnsPresent, punches, shifts, startDay, endDay, roster).rows ==>
              Weekday(x.day) != SUNDAY
  {
    if !columnsPresent || punches == [] {
      if startDay.Some? && endDay.Some? {
        AbsentGridContents(roster, WorkingDays(startDay.value, endDay.value));
      }
    } else {
      SummaryRows(columnsPresent, punches, shifts, startDay, endDay, roster);
    }
  }

  /** Without usable data the summary is the roster's absent grid (in roster order), or empty. */
  lemma FallbackRows(columnsPresent: bool, punches: seq<Punch>, shifts: map<string, Shift>,
                     startDay: Option<int>, endDay: Option<int>, roster: seq<string>)
    requires !columnsPresent || punches == []
    ensures var t := Summary(columnsPresent, punches, shifts, startDay, endDay, roster);
            && t.columns == SUMMARY_COLUMNS
            && (startDay.None? || endDay.None? ==> t.rows == [])
            && (startDay.Some? && endDay.Some? ==>
                  forall x :: x in t.rows <==> AbsentCell(roster, WorkingDays(startDay.value, endDay.value), x))
  {
    if startDay.Some? && endDay.Some? {
      AbsentGridContents(roster, WorkingDays(startDay.value, endDay.value));
    }
  }
}
