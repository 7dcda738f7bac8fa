/**
 * The report decoration of `generate_attendance_summary`: the summary of the
 * late-checkout pipeline gets device and employee branches, a designation, a
 * shift name and a shift flag per row, and then one subtotal row after each
 * employee's rows.
 */
module ExcelLogic {
  import opened Wrappers
  import opened Calendar
  import opened Records
  import Text
  import Partition
  import AdmsMain

  /* ---------------------------------------------------------------------- */
  /* Lookups                                                                 */

  /**
   * One row of a mapping table: `serial_number` to `branch_name`,
   * `employee_id` to `designation`, or `employee_id` to `branch_name`.
   */
  datatype Mapping = Mapping(key: string, value: string)

  function MappingKey(m: Mapping): string {
    m.key
  }

  /** `i` is the first row of `s` whose key is `k` (what `.iloc[0]` of the filtered frame picks). */
  ghost predicate IsFirstMatch<T>(s: seq<T>, key: T -> string, k: string, i: int) {
    0 <= i < |s| && key(s[i]) == k && forall j :: 0 <= j < i ==> key(s[j]) != k
  }

  /** The position of the first row with key `k`, if there is one. */
  function FirstMatch<T>(s: seq<T>, key: T -> string, k: string): (i: Option<nat>)
    ensures i.None? <==> forall j :: 0 <= j < |s| ==> key(s[j]) != k
    ensures i.Some? ==> IsFirstMatch(s, key, k, i.value)
    decreases |s|
  {
    if s == [] then None
    else if key(s[0]) == k then Some(0)
    else
      match FirstMatch(s[1..], key, k)
      case None =>
        assert forall j :: 1 <= j < |s| ==> s[j] == s[1..][j - 1];
        None
      case Some(j) => Some(j + 1)
  }

  /**
   * `map_branch`, `map_designation` and `map_employee_branch`: a missing id
   * maps to `""`; otherwise the value of the first row with that id, or `""`
   * when no row has it.  A mapping table without rows has no key column, so
   * looking a present id up in one raises `KeyError`.
   */
  function Lookup(table: seq<Mapping>, key: Option<string>): (v: string)
    requires key.Some? ==> table != []
    ensures key.None? ==> v == ""
    ensures key.Some? && (forall j :: 0 <= j < |table| ==> table[j].key != key.value) ==> v == ""
    ensures forall i :: key.Some? && IsFirstMatch(table, MappingKey, key.value, i) ==> v == table[i].value
  {
    if key.None? then ""
    else
      match FirstMatch(table, MappingKey, key.value)
      case None => ""
      case Some(i) => table[i].value
  }

  /* ---------------------------------------------------------------------- */
  /* Times as text                                                           */

  function Digit(n: int): (c: char)
    requires 0 <= n < 10
    ensures '0' <= c <= '9'
  {
    ('0' as int + n) as char
  }

  /** Two decimal digits with a leading zero (`f"{n:02d}"`). */
  function Pad2(n: int): (s: string)
    requires 0 <= n < 100
    ensures |s| == 2 && '0' <= s[0] <= '9' && '0' <= s[1] <= '9'
  {
    [Digit(n / 10), Digit(n % 10)]
  }

  /** `str(timestamp)[11:16]`: the `HH:MM` of a timestamp. */
  function HHMM(ts: int): (s: string)
    ensures |s| == 5 && s[2] == ':'
  {
    Pad2(Hour(ts)) + ":" + Pad2(Minute(ts))
  }

  /** `str(t)` of a `datetime.time`: `HH:MM:SS`. */
  function ClockText(h: int, m: int, s: int): (t: string)
    requires 0 <= h < 24 && 0 <= m < 60 && 0 <= s < 60
    ensures |t| == 8
  {
    Pad2(h) + ":" + Pad2(m) + ":" + Pad2(s)
  }

  /**
   * A `H:MM:SS` text whose hour is not padded below ten (`8:00:00`).  The
   * shift templates come from the caller, and their text form is not fixed
   * by the code; this is one form a start may take.
   */
  function UnpaddedClockText(h: int, m: int, s: int): (t: string)
    requires 0 <= h < 24 && 0 <= m < 60 && 0 <= s < 60
  {
    (if h < 10 then [Digit(h)] else Pad2(h)) + ":" + Pad2(m) + ":" + Pad2(s)
  }

  /** Minutes after midnight, which is all that `HH:MM` shows. */
  function ClockMinute(ts: int): int {
    Hour(ts) * 60 + Minute(ts)
  }

  lemma Pad2Order(a: int, b: int)
    requires 0 <= a < 100 && 0 <= b < 100
    ensures Text.Lt(Pad2(a), Pad2(b)) <==> a < b
    ensures Pad2(a) == Pad2(b) <==> a == b
  {
    var pa, pb := Pad2(a), Pad2(b);
    assert pa == [pa[0]] + [pa[1]] && pb == [pb[0]] + [pb[1]];
    Text.LtConcat([pa[0]], [pa[1]], [pb[0]], [pb[1]]);
    assert a == 10 * (a / 10) + a % 10 && b == 10 * (b / 10) + b % 10;
  }

  /**
   * Against a `HH:MM:SS` text, a timestamp's `HH:MM` compares by minutes, and a
   * tie counts as smaller (the five characters are a prefix of the eight).
   */
  lemma HHMMAgainstClockText(ts: int, h: int, m: int, s: int)
    requires 0 <= h < 24 && 0 <= m < 60 && 0 <= s < 60
    ensures Text.Lt(ClockText(h, m, s), HHMM(ts)) <==> ClockMinute(ts) > h * 60 + m
    ensures Text.Lt(HHMM(ts), ClockText(h, m, s)) <==> ClockMinute(ts) <= h * 60 + m
  {
    var hh, mm := Pad2(Hour(ts)), Pad2(Minute(ts));
    var ph, pm, ps := Pad2(h), Pad2(m), Pad2(s);
    Pad2Order(Hour(ts), h);
    Pad2Order(h, Hour(ts));
    Pad2Order(Minute(ts), m);
    Pad2Order(m, Minute(ts));
    assert HHMM(ts) == hh + (":" + mm);
    assert ClockText(h, m, s) == ph + (":" + (pm + (":" + ps)));
    Text.LtConcat(hh, ":" + mm, ph, ":" + (pm + (":" + ps)));
    Text.LtConcat(ph, ":" + (pm + (":" + ps)), hh, ":" + mm);
    Text.LtConcat(":", mm, ":", pm + (":" + ps));
    Text.LtConcat(":", pm + (":" + ps), ":", mm);
    Text.LtConcat(mm, [], pm, ":" + ps);
    Text.LtConcat(pm, ":" + ps, mm, []);
    assert mm + [] == mm;
  }

  /* ---------------------------------------------------------------------- */
  /* Shift information                                                       */

  /** One row of `shift_mappings`; `start` and `end` are `str(shift_start)` and `str(shift_end)`. */
  datatype ShiftTemplate = ShiftTemplate(userId: string, name: string, start: string, end: string)

  function TemplateUser(t: ShiftTemplate): string {
    t.userId
  }

  /**
   * The `shift_flag` values: "no shift", "absent", "shift_capped", "late in",
   * "late checkout", "early out" and "on time".
   */
  datatype Flag = NoShift | AbsentDay | ShiftCapped | LateIn | LateCheckout | EarlyOut | OnTime

  /** The check-in is late: its `HH:MM` is after the shift start text. */
  predicate LateStart(start: Option<int>, t: ShiftTemplate) {
    start.Some? && Text.Lt(t.start, HHMM(start.value))
  }

  /**
   * The comparisons of a worked, uncapped row against its template: `late in`
   * when the check-in's `HH:MM` is after the shift start text; then the
   * checkout decides, overriding that: after the shift end text and before
   * noon is `late checkout`, after it from noon on changes nothing, before it
   * is `early out`.
   */
  function TimeFlag(start: Option<int>, end: Option<int>, t: ShiftTemplate): (f: Flag)
    ensures f in {LateIn, LateCheckout, EarlyOut, OnTime}
    ensures f == LateCheckout <==> end.Some? && Text.Lt(t.end, HHMM(end.value)) && Hour(end.value) < NOON_HOUR
    ensures f == EarlyOut <==> end.Some? && Text.Lt(HHMM(end.value), t.end)
    ensures f == LateIn <==> LateStart(start, t) && f != LateCheckout && f != EarlyOut
  {
    var flag := if LateStart(start, t) then LateIn else OnTime;
    if end.None? then flag
    else
      var e := HHMM(end.value);
      Text.LtAsymmetric(e, t.end);
      if Text.Lt(t.end, e) then
        if Hour(end.value) < NOON_HOUR then LateCheckout else flag
      else if Text.Lt(e, t.end) then EarlyOut
      else flag
  }

  /** `(shift_name, shift_flag)`. */
  datatype ShiftInfo = ShiftInfo(name: string, flag: Flag)

  /**
   * `get_shift_info`: no template for the employee gives `no shift` and no
   * name; otherwise the name of the employee's first template, with
   * `absent` for an absent row, else `shift_capped` for a capped row, else
   * the flag of the time comparisons.
   */
  function GetShiftInfo(templates: seq<ShiftTemplate>, employee: string, status: Status,
                        start: Option<int>, end: Option<int>, capped: bool): (info: ShiftInfo)
    ensures info.flag == NoShift <==> forall j :: 0 <= j < |templates| ==> templates[j].userId != employee
    ensures info.flag == NoShift ==> info.name == ""
    ensures forall i :: IsFirstMatch(templates, TemplateUser, employee, i) ==>
              && info.name == templates[i].name
              && (status == Absent ==> info.flag == AbsentDay)
              && (status != Absent && capped ==> info.flag == ShiftCapped)
              && (status != Absent && !capped ==> info.flag == TimeFlag(start, end, templates[i]))
  {
    if templates == [] then ShiftInfo("", NoShift)
    else
      match FirstMatch(templates, TemplateUser, employee)
      case None => ShiftInfo("", NoShift)
      case Some(i) =>
        var t := templates[i];
        if status == Absent then ShiftInfo(t.name, AbsentDay)
        else if capped then ShiftInfo(t.name, ShiftCapped)
        else ShiftInfo(t.name, TimeFlag(start, end, t))
  }

  /**
   * With a `HH:MM:SS` shift start, a check-in is `late in` exactly when it is
   * in a later minute than the shift start (a check-in within the start
   * minute is on time).
   */
  lemma LateInByMinute(ts: int, t: ShiftTemplate, h: int, m: int, s: int)
    requires 0 <= h < 24 && 0 <= m < 60 && 0 <= s < 60
    requires t.start == ClockText(h, m, s)
    ensures LateStart(Some(ts), t) <==> ClockMinute(ts) > h * 60 + m
  {
    HHMMAgainstClockText(ts, h, m, s);
  }

  /**
   * With a `HH:MM:SS` shift end, a checkout is `early out` exactly when it is
   * in the shift end's minute or earlier: checking out right at the end of
   * the shift counts as leaving early.
   */
  lemma EarlyOutByMinute(start: Option<int>, ts: int, t: ShiftTemplate, h: int, m: int, s: int)
    requires 0 <= h < 24 && 0 <= m < 60 && 0 <= s < 60
    requires t.end == ClockText(h, m, s)
    ensures TimeFlag(start, Some(ts), t) == EarlyOut <==> ClockMinute(ts) <= h * 60 + m
    ensures TimeFlag(start, Some(ts), t) == LateCheckout <==> ClockMinute(ts) > h * 60 + m && Hour(ts) < NOON_HOUR
  {
    HHMMAgainstClockText(ts, h, m, s);
  }

  /** A `17:30:00` shift end makes a 17:30 checkout `early out`. */
  lemma HalfPastFiveCheckoutIsEarlyOut(start: Option<int>, ts: int)
    requires Hour(ts) == 17 && Minute(ts) == 30
    ensures TimeFlag(start, Some(ts), ShiftTemplate("E1", "DAY", "08:00:00", "17:30:00")) == EarlyOut
  {
    EarlyOutByMinute(start, ts, ShiftTemplate("E1", "DAY", "08:00:00", "17:30:00"), 17, 30, 0);
  }

  /** An 08:00 check-in against `08:00:00` is on time; an 08:01 one is late. */
  lemma EightOClockCheckInIsOnTime(ts: int, late: int)
    requires Hour(ts) == 8 && Minute(ts) == 0
    requires Hour(late) == 8 && Minute(late) == 1
    ensures TimeFlag(Some(ts), None, ShiftTemplate("E1", "DAY", "08:00:00", "17:30:00")) == OnTime
    ensures TimeFlag(Some(late), None, ShiftTemplate("E1", "DAY", "08:00:00", "17:30:00")) == LateIn
  {
    var t := ShiftTemplate("E1", "DAY", "08:00:00", "17:30:00");
    LateInByMinute(ts, t, 8, 0, 0);
    LateInByMinute(late, t, 8, 0, 0);
  }

  /**
   * A shift start written with an unpadded hour from 2 to 9 (`"8:00:00"`)
   * outranks every `HH:MM`: no check-in at any time is `late in`.
   */
  lemma UnpaddedStartNeverLate(ts: int, t: ShiftTemplate, h: int, m: int, s: int)
    requires 2 <= h < 10 && 0 <= m < 60 && 0 <= s < 60
    requires t.start == UnpaddedClockText(h, m, s)
    ensures !LateStart(Some(ts), t)
  {
    var hm := HHMM(ts);
    var d := UnpaddedClockText(h, m, s);
    assert d[0] == Digit(h) && d[1] == ':';
    assert hm[0] == Digit(Hour(ts) / 10);
    assert hm[0] <= '2';
    if hm[0] == d[0] {
      assert d[1..][0] == ':' && '0' <= hm[1..][0] <= '9';
      assert !Text.Lt(d[1..], hm[1..]);
    } else {
      assert hm[0] < d[0];
    }
  }

  /** `"0 days " + HH:MM:SS`: the text `str` gives for a `pd.Timedelta` under one day. */
  function DaysClockText(h: int, m: int, s: int): (t: string)
    requires 0 <= h < 24 && 0 <= m < 60 && 0 <= s < 60
    ensures |t| == 15 && t[0] == '0' && t[1] == ' '
  {
    "0 days " + ClockText(h, m, s)
  }

  /**
   * A shift start written as `"0 days 08:00:00"` is outranked by every
   * `HH:MM`: a check-in at any time of day is `late in`.
   */
  lemma DaysStartAlwaysLate(ts: int, t: ShiftTemplate, h: int, m: int, s: int)
    requires 0 <= h < 24 && 0 <= m < 60 && 0 <= s < 60
    requires t.start == DaysClockText(h, m, s)
    ensures LateStart(Some(ts), t)
  {
    var hm := HHMM(ts);
    var d := t.start;
    assert hm[0] == Digit(Hour(ts) / 10);
    if hm[0] == d[0] {
      assert d[1..][0] == ' ' && '0' <= hm[1..][0] <= '9';
      assert Text.Lt(d[1..], hm[1..]);
    } else {
      assert d[0] < hm[0];
    }
  }

  /** So an 08:05 check-in against `"8:00:00"` stays `on time`. */
  lemma SingleDigitStartHidesLateness(ts: int)
    requires Hour(ts) == 8 && Minute(ts) == 5
    ensures TimeFlag(Some(ts), None, ShiftTemplate("E1", "DAY", "8:00:00", "17:30:00")) == OnTime
  {
    assert UnpaddedClockText(8, 0, 0) == "8:00:00";
    UnpaddedStartNeverLate(ts, ShiftTemplate("E1", "DAY", "8:00:00", "17:30:00"), 8, 0, 0);
  }

  /* ---------------------------------------------------------------------- */
  /* Decorated rows                                                          */

  /** The mapping tables and shift templates the decoration reads. */
  datatype Lookups = Lookups(deviceBranches: seq<Mapping>, designations: seq<Mapping>,
                             employeeBranches: seq<Mapping>, templates: seq<ShiftTemplate>)

  /** The columns the decoration adds, in the order it adds them. */
  const DECORATION_COLUMNS: seq<string> :=
    ["start_device_sn_branch", "end_device_sn_branch", "designation", "employee_branch",
     "shift_name", "shift_flag"]

  /** A summary row with the decoration's columns. */
  datatype ReportLine = ReportLine(record: Record, startBranch: string, endBranch: string,
                                   designation: string, employeeBranch: string,
                                   shiftName: string, shiftFlag: Flag)

  /** The lookups a row needs do not raise: the tables it looks ids up in have rows. */
  predicate RowDecorable(r: Record, lk: Lookups) {
    && lk.designations != []
    && lk.employeeBranches != []
    && (r.status == Worked ==> lk.deviceBranches != [])
  }

  /**
   * One row's decoration: branches of its devices only for a worked row
   * (`""` otherwise), its employee's designation and branch, and its shift
   * information.
   */
  function DecorateRow(r: Record, lk: Lookups): (l: ReportLine)
    requires RowDecorable(r, lk)
    ensures l.record == r
    ensures r.status != Worked ==> l.startBranch == "" && l.endBranch == ""
    ensures r.status == Worked ==>
              l.startBranch == Lookup(lk.deviceBranches, Some(r.startSn)) &&
              l.endBranch == Lookup(lk.deviceBranches, Some(r.endSn))
    ensures l.designation == Lookup(lk.designations, Some(r.employee))
    ensures l.employeeBranch == Lookup(lk.employeeBranches, Some(r.employee))
    ensures ShiftInfo(l.shiftName, l.shiftFlag) == GetShiftInfo(lk.templates, r.employee, r.status, r.start, r.end, r.capped)
  {
    var startBranch := if r.status == Worked then Lookup(lk.deviceBranches, Some(r.startSn)) else "";
    var endBranch := if r.status == Worked then Lookup(lk.deviceBranches, Some(r.endSn)) else "";
    var info := GetShiftInfo(lk.templates, r.employee, r.status, r.start, r.end, r.capped);
    ReportLine(r, startBranch, endBranch, Lookup(lk.designations, Some(r.employee)),
               Lookup(lk.employeeBranches, Some(r.employee)), info.name, info.flag)
  }

  /**
   * The column assignments and the `iterrows` loop that writes `shift_name`
   * and `shift_flag`: every row decorated, in place, in order.
   */
  method Decorate(rows: seq<Record>, lk: Lookups) returns (lines: seq<ReportLine>)
    requires forall i :: 0 <= i < |rows| ==> RowDecorable(rows[i], lk)
    ensures |lines| == |rows|
    ensures forall i :: 0 <= i < |rows| ==> lines[i] == DecorateRow(rows[i], lk)
  {
    lines := [];
    var i := 0;
    while i < |rows|
      invariant 0 <= i <= |rows|
      invariant |lines| == i
      invariant forall j :: 0 <= j < i ==> lines[j] == DecorateRow(rows[j], lk)
    {
      DecorateStep(rows, lk, lines, i);
      lines := lines + [DecorateRow(rows[i], lk)];
      i := i + 1;
    }
  }

  lemma DecorateStep(rows: seq<Record>, lk: Lookups, lines: seq<ReportLine>, i: int)
    requires 0 <= i < |rows| && |lines| == i
    requires forall j :: 0 <= j < |rows| ==> RowDecorable(rows[j], lk)
    requires forall j :: 0 <= j < i ==> lines[j] == DecorateRow(rows[j], lk)
    ensures var lines' := lines + [DecorateRow(rows[i], lk)];
            forall j :: 0 <= j < i + 1 ==> lines'[j] == DecorateRow(rows[j], lk)
  {
    var x := DecorateRow(rows[i], lk);
    var lines' := lines + [x];
    forall j | 0 <= j < i + 1 ensures lines'[j] == DecorateRow(rows[j], lk) {
      if j < i {
        assert lines'[j] == lines[j];
      }
    }
  }

  /* ---------------------------------------------------------------------- */
  /* Subtotals                                                               */

  /** A row of the merged report: a decorated summary row, or an employee's subtotal. */
  datatype ReportRow =
    | Detail(line: ReportLine)
    | Subtotal(employee: string, designation: string, timeSpent: int)

  function LineEmployee(l: ReportLine): string {
    l.record.employee
  }

  /** The total `time_spent` of the `worked` rows of a group; 0 (`"0:00:00"`) when there are none. */
  function WorkedTime(group: seq<ReportLine>): int
    decreases |group|
  {
    if group == [] then 0
    else
      var last := group[|group| - 1];
      WorkedTime(group[..|group| - 1]) + (if last.record.status == Worked then last.record.timeSpent else 0)
  }

  lemma {:induction false} WorkedTimeAppend(a: seq<ReportLine>, b: seq<ReportLine>)
    ensures WorkedTime(a + b) == WorkedTime(a) + WorkedTime(b)
    decreases |b|
  {
    if b != [] {
      var init := b[..|b| - 1];
      assert (a + b)[..|a + b| - 1] == a + init;
      WorkedTimeAppend(a, init);
    } else {
      assert a + b == a;
    }
  }

  /** Only `worked` rows count: a group without one totals 0, and absent rows add nothing. */
  lemma {:induction false} WorkedTimeOfNoWorkedRows(group: seq<ReportLine>)
    requires forall i :: 0 <= i < |group| ==> group[i].record.status != Worked
    ensures WorkedTime(group) == 0
    decreases |group|
  {
    if group != [] {
      WorkedTimeOfNoWorkedRows(group[..|group| - 1]);
    }
  }

  /** The subtotal row of one employee's group: designation from its first row. */
  function SubtotalRow(group: seq<ReportLine>, employee: string): (r: ReportRow)
    ensures r.Subtotal? && r.employee == employee && r.timeSpent == WorkedTime(group)
    ensures r.designation == if group == [] then "" else group[0].designation
  {
    Subtotal(employee, if group == [] then "" else group[0].designation, WorkedTime(group))
  }

  function Details(group: seq<ReportLine>): (rows: seq<ReportRow>)
    ensures |rows| == |group|
    ensures forall i :: 0 <= i < |group| ==> rows[i] == Detail(group[i])
  {
    seq(|group|, i requires 0 <= i < |group| => Detail(group[i]))
  }

  /** For each listed employee in turn: that employee's rows, then its subtotal. */
  function WithSubtotalsFor(lines: seq<ReportLine>, employees: seq<string>): seq<ReportRow>
    decreases |employees|
  {
    if employees == [] then []
    else
      var e := employees[|employees| - 1];
      var group := Partition.Select(lines, LineEmployee, e);
      WithSubtotalsFor(lines, employees[..|employees| - 1]) + Details(group) + [SubtotalRow(group, e)]
  }

  /** The decorated rows of a report, in order. */
  function DetailLines(rows: seq<ReportRow>): (ls: seq<ReportLine>)
    ensures |ls| <= |rows|
    decreases |rows|
  {
    if rows == [] then []
    else
      var last := rows[|rows| - 1];
      DetailLines(rows[..|rows| - 1]) + (if last.Detail? then [last.line] else [])
  }

  /** The subtotal rows of a report, in order. */
  function Subtotals(rows: seq<ReportRow>): (ss: seq<ReportRow>)
    ensures |ss| <= |rows|
    ensures forall i :: 0 <= i < |ss| ==> ss[i].Subtotal?
    decreases |rows|
  {
    if rows == [] then []
    else
      var last := rows[|rows| - 1];
      Subtotals(rows[..|rows| - 1]) + (if last.Subtotal? then [last] else [])
  }

  lemma {:induction false} SplitAppend(a: seq<ReportRow>, b: seq<ReportRow>)
    ensures DetailLines(a + b) == DetailLines(a) + DetailLines(b)
    ensures Subtotals(a + b) == Subtotals(a) + Subtotals(b)
    decreases |b|
  {
    if b == [] {
      assert a + b == a;
    } else {
      var init := b[..|b| - 1];
      assert (a + b)[..|a + b| - 1] == a + init;
      SplitAppend(a, init);
    }
  }

  lemma {:induction false} SplitDetails(group: seq<ReportLine>)
    ensures DetailLines(Details(group)) == group
    ensures Subtotals(Details(group)) == []
    decreases |group|
  {
    if group != [] {
      var init := group[..|group| - 1];
      assert Details(group)[..|group| - 1] == Details(init);
      SplitDetails(init);
    }
  }

  /** The decorated rows of the subtotalled report: the groups of the listed employees, in order. */
  lemma {:induction false} SubtotalsDetails(lines: seq<ReportLine>, employees: seq<string>)
    ensures DetailLines(WithSubtotalsFor(lines, employees)) == Partition.Regroup(lines, LineEmployee, employees)
    decreases |employees|
  {
    if employees != [] {
      var init, e := employees[..|employees| - 1], employees[|employees| - 1];
      var group := Partition.Select(lines, LineEmployee, e);
      var front := WithSubtotalsFor(lines, init);
      SubtotalsDetails(lines, init);
      SplitAppend(front + Details(group), [SubtotalRow(group, e)]);
      SplitAppend(front, Details(group));
      SplitDetails(group);
      assert DetailLines([SubtotalRow(group, e)]) == [];
    }
  }

  /** The subtotal rows: one per listed employee, in order, each from that employee's group. */
  lemma {:induction false} SubtotalsRows(lines: seq<ReportLine>, employees: seq<string>)
    ensures var ss := Subtotals(WithSubtotalsFor(lines, employees));
            && |ss| == |employees|
            && (forall i :: 0 <= i < |employees| ==>
                  ss[i] == SubtotalRow(Partition.Select(lines, LineEmployee, employees[i]), employees[i]))
    decreases |employees|
  {
    if employees != [] {
      var init, e := employees[..|employees| - 1], employees[|employees| - 1];
      var group := Partition.Select(lines, LineEmployee, e);
      var front := WithSubtotalsFor(lines, init);
      SubtotalsRows(lines, init);
      var t := SubtotalRow(group, e);
      assert WithSubtotalsFor(lines, employees) == front + Details(group) + [t];
      SubtotalsStep(front, group, t);
      Partition.LastSplit(employees);
      SubtotalsIndexed(lines, Subtotals(front), init, e);
    }
  }

  /** A group's decorated rows and its subtotal add just that subtotal to the subtotals. */
  lemma SubtotalsStep(front: seq<ReportRow>, group: seq<ReportLine>, t: ReportRow)
    requires t.Subtotal?
    ensures Subtotals(front + Details(group) + [t]) == Subtotals(front) + [t]
  {
    var d := Details(group);
    SplitAppend(front + d, [t]);
    SplitAppend(front, d);
    SplitDetails(group);
    SubtotalsOfOne(t);
  }

  lemma SubtotalsOfOne(t: ReportRow)
    requires t.Subtotal?
    ensures Subtotals([t]) == [t]
  {
    assert [t][..0] == [];
  }

  /** One more subtotal, for one more employee, keeps the subtotals indexed by employee. */
  lemma SubtotalsIndexed(lines: seq<ReportLine>, ss: seq<ReportRow>, employees: seq<string>, e: string)
    requires |ss| == |employees|
    requires forall i :: 0 <= i < |employees| ==>
               ss[i] == SubtotalRow(Partition.Select(lines, LineEmployee, employees[i]), employees[i])
    ensures var ss', es' := ss + [SubtotalRow(Partition.Select(lines, LineEmployee, e), e)], employees + [e];
            forall i :: 0 <= i < |es'| ==>
              ss'[i] == SubtotalRow(Partition.Select(lines, LineEmployee, es'[i]), es'[i])
  {
  }

  /** One row per decorated row of the listed groups, plus one subtotal per listed employee. */
  lemma {:induction false} SubtotalsLength(lines: seq<ReportLine>, employees: seq<string>)
    ensures |WithSubtotalsFor(lines, employees)| == |Partition.Regroup(lines, LineEmployee, employees)| + |employees|
    decreases |employees|
  {
    if employees != [] {
      SubtotalsLength(lines, employees[..|employees| - 1]);
    }
  }

  /**
   * `groupby("employee_id", sort=False)` with a subtotal after each group:
   * the employees in order of first appearance, each group followed by its
   * subtotal row.
   */
  method WithSubtotals(lines: seq<ReportLine>) returns (out: seq<ReportRow>)
    ensures out == WithSubtotalsFor(lines, Partition.Keys(lines, LineEmployee))
  {
    var employees := Partition.Keys(lines, LineEmployee);
    out := [];
    var i := 0;
    while i < |employees|
      invariant 0 <= i <= |employees|
      invariant out == WithSubtotalsFor(lines, employees[..i])
    {
      var e := employees[i];
      var group := Partition.Select(lines, LineEmployee, e);
      Partition.PrefixStep(employees, i);
      out := out + Details(group) + [SubtotalRow(group, e)];
      i := i + 1;
    }
    assert employees[..|employees|] == employees;
  }

  /**
   * The subtotalled report has one row per decorated row plus one per
   * employee; its decorated rows are the input rearranged (grouped by
   * employee, none lost or added); and its subtotals are one per employee in
   * order of first appearance, each the worked time of that employee's rows,
   * and 0 for an employee with no worked row.
   */
  lemma SubtotalReport(lines: seq<ReportLine>)
    ensures var employees := Partition.Keys(lines, LineEmployee);
            var out := WithSubtotalsFor(lines, employees);
            && |out| == |lines| + |employees|
            && multiset(DetailLines(out)) == multiset(lines)
            && |Subtotals(out)| == |employees|
            && (forall i :: 0 <= i < |employees| ==>
                  var group := Partition.Select(lines, LineEmployee, employees[i]);
                  && group != []
                  && Subtotals(out)[i] == Subtotal(employees[i], group[0].designation, WorkedTime(group)))
  {
    var employees := Partition.Keys(lines, LineEmployee);
    SubtotalsDetails(lines, employees);
    SubtotalsRows(lines, employees);
    SubtotalsLength(lines, employees);
    Partition.KeysRegroupIsPermutation(lines, LineEmployee);
    forall i | 0 <= i < |employees| ensures Partition.Select(lines, LineEmployee, employees[i]) != [] {
      assert employees[i] in employees;
      var j :| 0 <= j < |lines| && LineEmployee(lines[j]) == employees[i];
      assert lines[j] in Partition.Select(lines, LineEmployee, employees[i]);
    }
  }

  /* ---------------------------------------------------------------------- */
  /* The attendance summary report                                           */

  /** The merged report: its columns and rows. */
  datatype Report = Report(columns: seq<string>, rows: seq<ReportRow>)

  /** The decorated rows of a summary. */
  function DecoratedRows(rows: seq<Record>, lk: Lookups): (lines: seq<ReportLine>)
    requires forall i :: 0 <= i < |rows| ==> RowDecorable(rows[i], lk)
    ensures |lines| == |rows|
    ensures forall i :: 0 <= i < |rows| ==> lines[i] == DecorateRow(rows[i], lk)
  {
    seq(|rows|, i requires 0 <= i < |rows| => DecorateRow(rows[i], lk))
  }

  /** What `generate_attendance_summary` makes of a summary: an empty one as it is. */
  function ReportOf(summary: Table, lk: Lookups): Report
    requires forall i :: 0 <= i < |summary.rows| ==> RowDecorable(summary.rows[i], lk)
  {
    if summary.rows == [] then Report(summary.columns, [])
    else
      var lines := DecoratedRows(summary.rows, lk);
      Report(summary.columns + DECORATION_COLUMNS, WithSubtotalsFor(lines, Partition.Keys(lines, LineEmployee)))
  }

  /**
   * `generate_attendance_summary`: the late-checkout summary of the
   * punches, decorated and subtotalled.  The mapping tables and templates are
   * parameters; each mapping table must have rows once the summary does.
   */
  method GenerateAttendanceSummary(columnsPresent: bool, attendances: seq<Punch>,
                                   mappings: seq<AdmsMain.MainShiftMapping>, lk: Lookups)
    returns (report: Report)
    requires columnsPresent && attendances != [] ==> AdmsMain.UsableFor(attendances, AdmsMain.ShiftTable(mappings))
    requires columnsPresent && attendances != [] ==>
               lk.deviceBranches != [] && lk.designations != [] && lk.employeeBranches != []
    ensures report == ReportOf(AdmsMain.MainSummary(columnsPresent, attendances, AdmsMain.ShiftTable(mappings)), lk)
  {
    var summary := AdmsMain.ProcessAttendanceSummary(columnsPresent, attendances, mappings);
    if summary.rows == [] {
      return Report(summary.columns, []);
    }
    var lines := Decorate(summary.rows, lk);
    assert lines == DecoratedRows(summary.rows, lk);
    var rows := WithSubtotals(lines);
    report := Report(summary.columns + DECORATION_COLUMNS, rows);
  }

  /** A worked, uncapped row is never flagged `absent` or `shift_capped`. */
  lemma WorkedRowFlag(r: Record, lk: Lookups)
    requires RowDecorable(r, lk)
    requires r.status == Worked && !r.capped
    ensures DecorateRow(r, lk).shiftFlag != AbsentDay && DecorateRow(r, lk).shiftFlag != ShiftCapped
  {
    var info := GetShiftInfo(lk.templates, r.employee, r.status, r.start, r.end, r.capped);
    assert DecorateRow(r, lk).shiftFlag == info.flag;
    match FirstMatch(lk.templates, TemplateUser, r.employee)
    case None =>
      assert info.flag == NoShift;
    case Some(j) =>
      assert IsFirstMatch(lk.templates, TemplateUser, r.employee, j);
      assert info.flag == TimeFlag(r.start, r.end, lk.templates[j]);
  }

  /**
   * For the late-checkout summary of usable punches, the report has a
   * decorated row per summary row plus a subtotal per employee; no row is
   * flagged `absent` or `shift_capped`, since that pipeline neither
   * synthesises absences nor caps; and every row gets its device branches.
   */
  lemma MainReportFacts(attendances: seq<Punch>, shifts: map<string, AdmsMain.MainShift>, lk: Lookups)
    requires attendances != [] && AdmsMain.UsableFor(attendances, shifts)
    requires lk.deviceBranches != [] && lk.designations != [] && lk.employeeBranches != []
    ensures var summary := AdmsMain.MainSummary(true, attendances, shifts);
            var lines := DecoratedRows(summary.rows, lk);
            && ReportOf(summary, lk) == Report(WORKED_COLUMNS + DECORATION_COLUMNS,
                                               WithSubtotalsFor(lines, Partition.Keys(lines, LineEmployee)))
            && (forall i :: 0 <= i < |lines| ==>
                  && lines[i].shiftFlag != AbsentDay && lines[i].shiftFlag != ShiftCapped
                  && lines[i].startBranch == Lookup(lk.deviceBranches, Some(summary.rows[i].startSn))
                  && lines[i].endBranch == Lookup(lk.deviceBranches, Some(summary.rows[i].endSn)))
  {
    var summary := AdmsMain.MainSummary(true, attendances, shifts);
    AdmsMain.MainSummaryFacts(true, attendances, shifts);
    var lines := DecoratedRows(summary.rows, lk);
    forall i | 0 <= i < |lines|
      ensures lines[i].shiftFlag != AbsentDay && lines[i].shiftFlag != ShiftCapped
    {
      WorkedRowFlag(summary.rows[i], lk);
    }
  }
}
