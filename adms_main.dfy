/**
 * The late-checkout pipeline of `adms_wrapper/__main__.py`.
 *
 * Each employee's punches are sorted by time; a punch in the small hours,
 * after the employee's shift end and before noon, is credited to the
 * previous day when the employee also punched on that previous date.  The
 * summary keeps only worked days; a single-punch day runs to 23:59:59.
 */
module AdmsMain {
  import opened Wrappers
  import opened Calendar
  import opened Records
  import Partition
  import Grouping

  /* ---------------------------------------------------------------------- */
  /* Shift times                                                             */

  /** A wall-clock time (`datetime.time`) to the second. */
  datatype Clock = Clock(hour: int, minute: int, second: int)

  predicate ValidClock(c: Clock) {
    0 <= c.hour < 24 && 0 <= c.minute < 60 && 0 <= c.second < 60
  }

  /** Seconds after midnight. */
  function ClockSeconds(c: Clock): int {
    c.hour * SECONDS_PER_HOUR + c.minute * SECONDS_PER_MINUTE + c.second
  }

  /** A shift time as the database hands it over: a `time`, or a `Timedelta` (whole seconds). */
  datatype RawTime = AtClock(clock: Clock) | AsTimedelta(seconds: int)

  /**
   * A shift end the code can turn into a `time`: a `Timedelta` must lie in
   * [0, 24 h), since `f"{hours:02d}:..."` with 24 hours or more, or a negative
   * hour, does not parse.
   */
  predicate Usable(t: RawTime) {
    match t
    case AtClock(c) => ValidClock(c)
    case AsTimedelta(s) => 0 <= s < SECONDS_PER_DAY
  }

  /** The two `divmod` steps and the round trip through `"HH:MM:SS"`. */
  function TimedeltaToClock(total: int): (c: Clock)
    requires 0 <= total < SECONDS_PER_DAY
    ensures ValidClock(c) && ClockSeconds(c) == total
  {
    var hours, remainder := total / SECONDS_PER_HOUR, total % SECONDS_PER_HOUR;
    Clock(hours, remainder / SECONDS_PER_MINUTE, remainder % SECONDS_PER_MINUTE)
  }

  /** Converting a `time`'s own seconds gives that `time` back. */
  lemma ClockRoundTrip(c: Clock)
    requires ValidClock(c)
    ensures TimedeltaToClock(ClockSeconds(c)) == c
  {
    var s := ClockSeconds(c);
    var r := c.minute * SECONDS_PER_MINUTE + c.second;
    assert 0 <= r < SECONDS_PER_HOUR;
    DivModUnique(s, SECONDS_PER_HOUR, c.hour, r);
    DivModUnique(r, SECONDS_PER_MINUTE, c.minute, c.second);
  }

  /** The shift end in seconds after midnight, after any `Timedelta` conversion. */
  function EndSeconds(t: RawTime): (s: int)
    requires Usable(t)
    ensures 0 <= s < SECONDS_PER_DAY
    ensures t.AtClock? ==> s == ClockSeconds(t.clock)
    ensures t.AsTimedelta? ==> s == t.seconds
  {
    match t
    case AtClock(c) => ClockSeconds(c)
    case AsTimedelta(total) => ClockSeconds(TimedeltaToClock(total))
  }

  /** A shift: name, start and end as stored. */
  datatype MainShift = MainShift(name: string, start: RawTime, end: RawTime)

  /** One row of `get_user_shift_mappings()`. */
  datatype MainShiftMapping = MainShiftMapping(userId: string, name: string, start: RawTime, end: RawTime)

  function MappingUser(m: MainShiftMapping): string {
    m.userId
  }

  function MappingShift(m: MainShiftMapping): MainShift {
    MainShift(m.name, m.start, m.end)
  }

  /** The shift table keyed by user id; a user listed twice keeps the shift of its last row. */
  function ShiftTable(mappings: seq<MainShiftMapping>): (shifts: map<string, MainShift>)
    ensures Partition.LastWriteWins(mappings, MappingUser, MappingShift, shifts)
  {
    Partition.LastWrites(mappings, MappingUser, MappingShift)
  }

  /** `get_shift_mappings`: one entry per `user_id`, the last row winning. */
  method GetShiftMappings(mappings: seq<MainShiftMapping>) returns (shifts: map<string, MainShift>)
    ensures shifts == ShiftTable(mappings)
    ensures Partition.LastWriteWins(mappings, MappingUser, MappingShift, shifts)
  {
    shifts := map[];
    if mappings == [] {
      return;
    }
    var i := 0;
    while i < |mappings|
      invariant 0 <= i <= |mappings|
      invariant shifts == ShiftTable(mappings[..i])
    {
      var shift := mappings[i];
      Partition.PrefixStep(mappings, i);
      shifts := shifts[shift.userId := MainShift(shift.name, shift.start, shift.end)];
      i := i + 1;
    }
    assert mappings[..|mappings|] == mappings;
  }

  /** Every punching employee with a shift has a shift end the code can convert. */
  predicate UsableFor(punches: seq<Punch>, shifts: map<string, MainShift>) {
    forall p :: p in punches && p.employee in shifts ==> Usable(shifts[p.employee].end)
  }

  /* ---------------------------------------------------------------------- */
  /* Late checkout                                                           */

  /** Some punch of `data` is dated `day`. */
  predicate PunchedOn(data: seq<Punch>, day: int) {
    exists i :: 0 <= i < |data| && DayOf(data[i].ts) == day
  }

  /**
   * `process_late_checkout`: the day a punch counts for.  It is the day
   * before the punch's date exactly when the employee has a shift, the punch
   * is strictly after the shift end (as a time of day), before noon, and the
   * employee's own punches include one dated the previous day; otherwise it
   * is the punch's own date.
   */
  function LateCheckoutDay(employeeData: seq<Punch>, p: Punch, shifts: map<string, MainShift>): (day: int)
    requires p.employee in shifts ==> Usable(shifts[p.employee].end)
    ensures day == DayOf(p.ts) || day == DayOf(p.ts) - 1
    ensures day == DayOf(p.ts) - 1 <==>
              && p.employee in shifts
              && TimeOfDay(p.ts) > EndSeconds(shifts[p.employee].end)
              && Hour(p.ts) < NOON_HOUR
              && PunchedOn(employeeData, DayOf(p.ts) - 1)
  {
    var day := DayOf(p.ts);
    if p.employee in shifts then
      var shiftEnd := EndSeconds(shifts[p.employee].end);
      if TimeOfDay(p.ts) > shiftEnd && Hour(p.ts) < NOON_HOUR && PunchedOn(employeeData, day - 1) then day - 1
      else day
    else day
  }

  /** A shift ending at noon or later never moves a punch: a later time of day is already past noon. */
  lemma {:induction false} AfternoonShiftEndNeverReassigns(employeeData: seq<Punch>, p: Punch, shifts: map<string, MainShift>)
    requires p.employee in shifts && Usable(shifts[p.employee].end)
    requires EndSeconds(shifts[p.employee].end) >= NOON_HOUR * SECONDS_PER_HOUR
    ensures LateCheckoutDay(employeeData, p, shifts) == DayOf(p.ts)
  {
    if TimeOfDay(p.ts) > EndSeconds(shifts[p.employee].end) {
      assert Hour(p.ts) >= NOON_HOUR;
    }
  }

  /* ---------------------------------------------------------------------- */
  /* Sorting each employee's punches                                         */

  ghost predicate TsSorted(s: seq<Punch>) {
    forall i, j :: 0 <= i < j < |s| ==> s[i].ts <= s[j].ts
  }

  /** Insert after every punch not later than `x` (keeps equal timestamps in arrival order). */
  function InsertByTs(x: Punch, s: seq<Punch>): (r: seq<Punch>)
    ensures multiset(r) == multiset(s) + multiset{x}
    ensures |r| == |s| + 1
    decreases |s|
  {
    if s == [] then [x]
    else if x.ts < s[0].ts then [x] + s
    else
      assert s == [s[0]] + s[1..];
      [s[0]] + InsertByTs(x, s[1..])
  }

  /** Inserting into a time-ordered run keeps it time-ordered. */
  lemma {:induction false} InsertByTsSorted(x: Punch, s: seq<Punch>)
    requires TsSorted(s)
    ensures TsSorted(InsertByTs(x, s))
    decreases |s|
  {
    if s != [] && x.ts >= s[0].ts {
      var t := s[1..];
      assert TsSorted(t) by {
        forall i, j | 0 <= i < j < |t| ensures t[i].ts <= t[j].ts {
          assert t[i] == s[i + 1] && t[j] == s[j + 1];
        }
      }
      InsertByTsSorted(x, t);
      var rest := InsertByTs(x, t);
      forall j | 0 <= j < |rest| ensures s[0].ts <= rest[j].ts {
        assert rest[j] in multiset(rest);
        if rest[j] in multiset(t) {
          var k :| 0 <= k < |t| && t[k] == rest[j];
          assert s[k + 1] == t[k];
        }
      }
      ConsSortedTs(s[0], rest);
    }
  }

  lemma ConsSortedTs(x: Punch, s: seq<Punch>)
    requires TsSorted(s)
    requires forall j :: 0 <= j < |s| ==> x.ts <= s[j].ts
    ensures TsSorted([x] + s)
  {
    var r := [x] + s;
    forall i, j | 0 <= i < j < |r| ensures r[i].ts <= r[j].ts {
      assert r[j] == s[j - 1];
      if i > 0 {
        assert r[i] == s[i - 1];
      }
    }
  }

  /**
   * `sort_values("timestamp")` on one employee's punches, as a stable
   * insertion sort: ordered by time, the same punches.
   */
  function SortByTs(s: seq<Punch>): (r: seq<Punch>)
    ensures multiset(r) == multiset(s)
    ensures |r| == |s|
    ensures TsSorted(r)
    decreases |s|
  {
    if s == [] then []
    else
      var sorted := SortByTs(s[..|s| - 1]);
      InsertByTsSorted(s[|s| - 1], sorted);
      Partition.LastSplit(s);
      InsertByTs(s[|s| - 1], sorted)
  }

  /* ---------------------------------------------------------------------- */
  /* Processed entries                                                       */

  function EmployeeOfPunch(p: Punch): string {
    p.employee
  }

  function PunchOf(e: Entry): Punch {
    Punch(e.employee, e.ts, e.sn)
  }

  /** The punch part of each entry. */
  function Punches(es: seq<Entry>): (ps: seq<Punch>)
    ensures |ps| == |es|
    ensures forall i :: 0 <= i < |es| ==> ps[i] == PunchOf(es[i])
  {
    seq(|es|, i requires 0 <= i < |es| => PunchOf(es[i]))
  }

  lemma PunchesAppend(a: seq<Entry>, b: seq<Entry>)
    ensures Punches(a + b) == Punches(a) + Punches(b)
  {
  }

  /** The inner loop's output: each of the employee's sorted punches with the day it counts for. */
  function EmployeeEntries(data: seq<Punch>, shifts: map<string, MainShift>): (es: seq<Entry>)
    requires UsableFor(data, shifts)
    ensures Punches(es) == data
  {
    var es := seq(|data|, i requires 0 <= i < |data| =>
      assert data[i] in data;
      Entry(data[i].employee, data[i].ts, data[i].sn, LateCheckoutDay(data, data[i], shifts)));
    assert Punches(es) == data;
    es
  }

  /** One employee's punches, sorted by time (`df_att[df_att["employee_id"] == k].sort_values("timestamp")`). */
  function EmployeeData(punches: seq<Punch>, employee: string): (data: seq<Punch>)
    ensures forall p :: p in data <==> p in punches && p.employee == employee
    ensures TsSorted(data)
  {
    var selected := Partition.Select(punches, EmployeeOfPunch, employee);
    var data := SortByTs(selected);
    forall p ensures p in data <==> p in selected {
      assert p in data <==> p in multiset(data);
      assert p in selected <==> p in multiset(selected);
    }
    data
  }

  /** An employee's data holds each of that employee's punches as often as the input does. */
  lemma EmployeeDataCounts(punches: seq<Punch>, employee: string)
    ensures forall p :: multiset(EmployeeData(punches, employee))[p]
                          == if p.employee == employee then multiset(punches)[p] else 0
  {
    Partition.SelectCounts(punches, EmployeeOfPunch, employee);
  }

  lemma UsableForSubset(punches: seq<Punch>, sub: seq<Punch>, shifts: map<string, MainShift>)
    requires UsableFor(punches, shifts)
    requires forall p :: p in sub ==> p in punches
    ensures UsableFor(sub, shifts)
  {
  }

  /** The entries of the listed employees, one block per employee in list order. */
  function Blocks(punches: seq<Punch>, employees: seq<string>, shifts: map<string, MainShift>): seq<Entry>
    requires UsableFor(punches, shifts)
    decreases |employees|
  {
    if employees == [] then []
    else
      var data := EmployeeData(punches, employees[|employees| - 1]);
      UsableForSubset(punches, data, shifts);
      Blocks(punches, employees[..|employees| - 1], shifts) + EmployeeEntries(data, shifts)
  }

  /** What `process_attendance_entries` returns, employees in order of first appearance. */
  function ProcessedEntries(punches: seq<Punch>, shifts: map<string, MainShift>): seq<Entry>
    requires UsableFor(punches, shifts)
  {
    Blocks(punches, Partition.Keys(punches, EmployeeOfPunch), shifts)
  }

  /**
   * `process_attendance_entries`: for each employee in order of first
   * appearance, that employee's punches in time order, each with the day
   * `process_late_checkout` assigns.
   */
  method ProcessAttendanceEntries(punches: seq<Punch>, shifts: map<string, MainShift>) returns (processed: seq<Entry>)
    requires UsableFor(punches, shifts)
    ensures processed == ProcessedEntries(punches, shifts)
  {
    var employees := Partition.Keys(punches, EmployeeOfPunch);
    processed := GenerateBlocks(punches, employees, shifts);
  }

  /** The outer loop of `process_attendance_entries`: employee by employee. */
  method GenerateBlocks(punches: seq<Punch>, employees: seq<string>, shifts: map<string, MainShift>)
    returns (processed: seq<Entry>)
    requires UsableFor(punches, shifts)
    ensures processed == Blocks(punches, employees, shifts)
  {
    processed := [];
    var i := 0;
    while i < |employees|
      invariant 0 <= i <= |employees|
      invariant processed == Blocks(punches, employees[..i], shifts)
    {
      var employee := employees[i];
      var employeeData := EmployeeData(punches, employee);
      UsableForSubset(punches, employeeData, shifts);
      var block := GenerateEmployeeEntries(employeeData, shifts);
      BlocksStep(punches, employees, shifts, i);
      processed := processed + block;
      i := i + 1;
    }
    assert employees[..|employees|] == employees;
  }

  lemma BlocksStep(punches: seq<Punch>, employees: seq<string>, shifts: map<string, MainShift>, i: int)
    requires UsableFor(punches, shifts)
    requires 0 <= i < |employees|
    ensures UsableFor(EmployeeData(punches, employees[i]), shifts)
    ensures Blocks(punches, employees[..i + 1], shifts)
         == Blocks(punches, employees[..i], shifts) + EmployeeEntries(EmployeeData(punches, employees[i]), shifts)
  {
    UsableForSubset(punches, EmployeeData(punches, employees[i]), shifts);
    Partition.PrefixStep(employees, i);
  }

  /** The inner loop of `process_attendance_entries`: one employee's sorted punches, each with its day. */
  method GenerateEmployeeEntries(employeeData: seq<Punch>, shifts: map<string, MainShift>) returns (block: seq<Entry>)
    requires UsableFor(employeeData, shifts)
    ensures block == EmployeeEntries(employeeData, shifts)
  {
    block := [];
    var j := 0;
    while j < |employeeData|
      invariant 0 <= j <= |employeeData|
      invariant |block| == j
      invariant forall k :: 0 <= k < j ==> block[k] == EmployeeEntries(employeeData, shifts)[k]
    {
      var entry := employeeData[j];
      assert entry in employeeData;
      var day := LateCheckoutDay(employeeData, entry, shifts);
      block := block + [Entry(entry.employee, entry.ts, entry.sn, day)];
      j := j + 1;
    }
  }

  /* ---------------------------------------------------------------------- */
  /* What the processed entries are                                          */

  /** The employee punched on `day` (by the punch's own date). */
  ghost predicate PunchedOnBy(punches: seq<Punch>, employee: string, day: int) {
    exists i :: 0 <= i < |punches| && punches[i].employee == employee && DayOf(punches[i].ts) == day
  }

  /** The day an entry counts for, stated against all of the input's punches. */
  ghost predicate AssignedDay(punches: seq<Punch>, shifts: map<string, MainShift>, e: Entry) {
    if && e.employee in shifts && Usable(shifts[e.employee].end)
       && TimeOfDay(e.ts) > EndSeconds(shifts[e.employee].end)
       && Hour(e.ts) < NOON_HOUR
       && PunchedOnBy(punches, e.employee, DayOf(e.ts) - 1)
    then e.day == DayOf(e.ts) - 1
    else e.day == DayOf(e.ts)
  }

  lemma EmployeeDataPunchedOn(punches: seq<Punch>, employee: string, day: int)
    ensures PunchedOn(EmployeeData(punches, employee), day) <==> PunchedOnBy(punches, employee, day)
  {
    var data := EmployeeData(punches, employee);
    if PunchedOn(data, day) {
      var i :| 0 <= i < |data| && DayOf(data[i].ts) == day;
      assert data[i] in data;
      var j :| 0 <= j < |punches| && punches[j] == data[i];
    }
    if PunchedOnBy(punches, employee, day) {
      var j :| 0 <= j < |punches| && punches[j].employee == employee && DayOf(punches[j].ts) == day;
      assert punches[j] in data;
      var i :| 0 <= i < |data| && data[i] == punches[j];
    }
  }

  /** An employee's block: that employee's punches in time order, each credited to its assigned day. */
  lemma EmployeeBlockFacts(punches: seq<Punch>, employee: string, shifts: map<string, MainShift>)
    requires UsableFor(punches, shifts)
    ensures var data := EmployeeData(punches, employee);
            UsableFor(data, shifts) &&
            var es := EmployeeEntries(data, shifts);
            && (forall i :: 0 <= i < |es| ==> es[i].employee == employee && AssignedDay(punches, shifts, es[i]))
            && (forall i, j :: 0 <= i < j < |es| ==> es[i].ts <= es[j].ts)
  {
    var data := EmployeeData(punches, employee);
    UsableForSubset(punches, data, shifts);
    var es := EmployeeEntries(data, shifts);
    forall i | 0 <= i < |es| ensures es[i].employee == employee && AssignedDay(punches, shifts, es[i]) {
      assert PunchOf(es[i]) == data[i];
      assert data[i] in data;
      EmployeeDataPunchedOn(punches, employee, DayOf(es[i].ts) - 1);
    }
    forall i, j | 0 <= i < j < |es| ensures es[i].ts <= es[j].ts {
      assert PunchOf(es[i]) == data[i] && PunchOf(es[j]) == data[j];
    }
  }

  lemma NoDuplicatesInit<K>(ks: seq<K>)
    requires Partition.NoDuplicates(ks) && ks != []
    ensures Partition.NoDuplicates(ks[..|ks| - 1])
    ensures ks[|ks| - 1] !in ks[..|ks| - 1]
  {
    var init := ks[..|ks| - 1];
    forall i, j | 0 <= i < j < |init| ensures init[i] != init[j] {
      assert init[i] == ks[i] && init[j] == ks[j];
    }
  }

  /** The listed employees' blocks hold exactly the punches of those employees. */
  lemma {:induction false} BlocksPermutation(punches: seq<Punch>, employees: seq<string>, shifts: map<string, MainShift>)
    requires UsableFor(punches, shifts)
    ensures multiset(Punches(Blocks(punches, employees, shifts)))
              == multiset(Partition.Regroup(punches, EmployeeOfPunch, employees))
    decreases |employees|
  {
    if employees != [] {
      var init, last := employees[..|employees| - 1], employees[|employees| - 1];
      BlocksPermutation(punches, init, shifts);
      var data := EmployeeData(punches, last);
      UsableForSubset(punches, data, shifts);
      var front := Blocks(punches, init, shifts);
      var back := EmployeeEntries(data, shifts);
      assert Blocks(punches, employees, shifts) == front + back;
      PunchesAppend(front, back);
      assert multiset(data) == multiset(Partition.Select(punches, EmployeeOfPunch, last));
    }
  }

  /** Every entry of the blocks belongs to a listed employee. */
  lemma {:induction false} BlocksEmployees(punches: seq<Punch>, employees: seq<string>, shifts: map<string, MainShift>)
    requires UsableFor(punches, shifts)
    ensures forall e :: e in Blocks(punches, employees, shifts) ==> e.employee in employees
    decreases |employees|
  {
    if employees != [] {
      var init, last := employees[..|employees| - 1], employees[|employees| - 1];
      Partition.LastSplit(employees);
      BlocksEmployees(punches, init, shifts);
      EmployeeBlockFacts(punches, last, shifts);
      var back := EmployeeEntries(EmployeeData(punches, last), shifts);
      assert Blocks(punches, employees, shifts) == Blocks(punches, init, shifts) + back;
      forall e | e in back ensures e.employee == last {
        var i :| 0 <= i < |back| && back[i] == e;
      }
    }
  }

  /**
   * The entries' employees come in the order of `employees`: an entry of a
   * later-listed employee never comes before one of an earlier-listed one.
   */
  ghost predicate InListOrder(es: seq<Entry>, employees: seq<string>) {
    forall a, b, i, j ::
      && 0 <= a < b < |es| && 0 <= i < |employees| && 0 <= j < |employees|
      && es[a].employee == employees[i] && es[b].employee == employees[j]
      ==> i <= j
  }

  /** Each employee's entries form one unbroken run. */
  ghost predicate Contiguous(es: seq<Entry>) {
    forall a, b, c :: 0 <= a < b < c < |es| && es[a].employee == es[c].employee ==>
      es[b].employee == es[a].employee
  }

  /** The blocks follow the list: one block per listed employee, in list order. */
  lemma {:induction false} BlocksInListOrder(punches: seq<Punch>, employees: seq<string>, shifts: map<string, MainShift>)
    requires UsableFor(punches, shifts)
    requires Partition.NoDuplicates(employees)
    ensures InListOrder(Blocks(punches, employees, shifts), employees)
    decreases |employees|
  {
    if employees != [] {
      var init, last := employees[..|employees| - 1], employees[|employees| - 1];
      NoDuplicatesInit(employees);
      BlocksInListOrder(punches, init, shifts);
      BlocksEmployees(punches, init, shifts);
      EmployeeBlockFacts(punches, last, shifts);
      var front := Blocks(punches, init, shifts);
      var back := EmployeeEntries(EmployeeData(punches, last), shifts);
      var es := Blocks(punches, employees, shifts);
      assert es == front + back;
      forall a, b, i, j | 0 <= a < b < |es| && 0 <= i < |employees| && 0 <= j < |employees| &&
        es[a].employee == employees[i] && es[b].employee == employees[j]
        ensures i <= j
      {
        if b < |front| {
          assert es[a] == front[a] && es[b] == front[b];
          assert front[a] in front && front[b] in front;
          if i < |init| && j < |init| {
            assert init[i] == employees[i] && init[j] == employees[j];
          }
        } else {
          assert es[b] == back[b - |front|];
          assert employees[j] == last;
        }
      }
    }
  }

  /**
   * Entries in list order, every one of a listed employee, form one
   * unbroken run per employee.
   */
  lemma ListOrderContiguous(es: seq<Entry>, employees: seq<string>)
    requires InListOrder(es, employees)
    requires forall e :: e in es ==> e.employee in employees
    ensures Contiguous(es)
  {
    forall a, b, c | 0 <= a < b < c < |es| && es[a].employee == es[c].employee
      ensures es[b].employee == es[a].employee
    {
      assert es[a] in es && es[b] in es;
      var i :| 0 <= i < |employees| && employees[i] == es[a].employee;
      var j :| 0 <= j < |employees| && employees[j] == es[b].employee;
      assert i <= j && j <= i;
    }
  }

  /** Every entry of the blocks is credited to its assigned day. */
  lemma {:induction false} BlocksAssigned(punches: seq<Punch>, employees: seq<string>, shifts: map<string, MainShift>)
    requires UsableFor(punches, shifts)
    ensures forall e :: e in Blocks(punches, employees, shifts) ==> AssignedDay(punches, shifts, e)
    decreases |employees|
  {
    if employees != [] {
      var init, last := employees[..|employees| - 1], employees[|employees| - 1];
      BlocksAssigned(punches, init, shifts);
      EmployeeBlockFacts(punches, last, shifts);
      var back := EmployeeEntries(EmployeeData(punches, last), shifts);
      assert Blocks(punches, employees, shifts) == Blocks(punches, init, shifts) + back;
      forall e | e in back ensures AssignedDay(punches, shifts, e) {
        var i :| 0 <= i < |back| && back[i] == e;
      }
    }
  }

  /** Entries sharing an employee are in time order. */
  ghost predicate EmployeeTsSorted(es: seq<Entry>) {
    forall i, j :: 0 <= i < j < |es| && es[i].employee == es[j].employee ==> es[i].ts <= es[j].ts
  }

  lemma EmployeeTsSortedConcat(front: seq<Entry>, back: seq<Entry>)
    requires EmployeeTsSorted(front) && EmployeeTsSorted(back)
    requires forall i, j :: 0 <= i < |front| && 0 <= j < |back| ==> front[i].employee != back[j].employee
    ensures EmployeeTsSorted(front + back)
  {
    var all := front + back;
    forall i, j | 0 <= i < j < |all| && all[i].employee == all[j].employee ensures all[i].ts <= all[j].ts {
      if j < |front| {
        assert all[i] == front[i] && all[j] == front[j];
      } else if i >= |front| {
        assert all[i] == back[i - |front|] && all[j] == back[j - |front|];
      }
    }
  }

  /** With each employee listed once, each employee's entries are in time order. */
  lemma {:induction false} BlocksSorted(punches: seq<Punch>, employees: seq<string>, shifts: map<string, MainShift>)
    requires UsableFor(punches, shifts)
    requires Partition.NoDuplicates(employees)
    ensures EmployeeTsSorted(Blocks(punches, employees, shifts))
    decreases |employees|
  {
    if employees != [] {
      var init, last := employees[..|employees| - 1], employees[|employees| - 1];
      NoDuplicatesInit(employees);
      BlocksSorted(punches, init, shifts);
      BlocksEmployees(punches, init, shifts);
      EmployeeBlockFacts(punches, last, shifts);
      var front := Blocks(punches, init, shifts);
      var back := EmployeeEntries(EmployeeData(punches, last), shifts);
      assert Blocks(punches, employees, shifts) == front + back;
      forall i, j | 0 <= i < |front| && 0 <= j < |back| ensures front[i].employee != back[j].employee {
        assert front[i] in front;
      }
      EmployeeTsSortedConcat(front, back);
    }
  }

  /**
   * The processed entries are the input's punches, rearranged (none lost,
   * none added), each credited to its assigned day (its own date or the
   * day before), and each employee's entries in time order.  The entries
   * come in one unbroken run per employee, the runs in the order in which
   * the employees first appear among the punches.
   */
  lemma ProcessedEntriesFacts(punches: seq<Punch>, shifts: map<string, MainShift>)
    requires UsableFor(punches, shifts)
    ensures multiset(Punches(ProcessedEntries(punches, shifts))) == multiset(punches)
    ensures |ProcessedEntries(punches, shifts)| == |punches|
    ensures forall e :: e in ProcessedEntries(punches, shifts) ==> AssignedDay(punches, shifts, e)
    ensures EmployeeTsSorted(ProcessedEntries(punches, shifts))
    ensures var employees := Partition.Keys(punches, EmployeeOfPunch);
            && Partition.InFirstAppearanceOrder(punches, EmployeeOfPunch, employees)
            && (forall e :: e in ProcessedEntries(punches, shifts) ==> e.employee in employees)
            && InListOrder(ProcessedEntries(punches, shifts), employees)
            && Contiguous(ProcessedEntries(punches, shifts))
  {
    var employees := Partition.Keys(punches, EmployeeOfPunch);
    Partition.KeysInFirstAppearanceOrder(punches, EmployeeOfPunch);
    BlocksEmployees(punches, employees, shifts);
    BlocksInListOrder(punches, employees, shifts);
    ListOrderContiguous(ProcessedEntries(punches, shifts), employees);
    BlocksPermutation(punches, employees, shifts);
    BlocksAssigned(punches, employees, shifts);
    BlocksSorted(punches, employees, shifts);
    Partition.KeysRegroupIsPermutation(punches, EmployeeOfPunch);
    var es := ProcessedEntries(punches, shifts);
    assert |Punches(es)| == |es|;
    assert |multiset(Punches(es))| == |multiset(punches)|;
  }

  /* ---------------------------------------------------------------------- */
  /* The summary                                                             */

  /** `pd.Timestamp.combine(day, 23:59:59)`. */
  function EndOfDay(day: int): int {
    DayStart(day) + LAST_SECOND_OF_DAY
  }

  /** What `calculate_time_spent_and_flag` of this pipeline returns: time spent, `shift_capped`, end. */
  datatype MainTiming = MainTiming(spent: int, capped: bool, end: int)

  /**
   * `calculate_time_spent_and_flag`: a group of one punch ends at 23:59:59 of
   * its day, a larger group at its last punch; the time spent is end minus
   * start, and nothing is ever capped.  A shift end is converted (which is
   * why it must be convertible) and compared, but the comparison's branches
   * do nothing.
   */
  function MainTimeSpent(g: Grouping.Group, shifts: map<string, MainShift>): (t: MainTiming)
    requires g.employee in shifts ==> Usable(shifts[g.employee].end)
    ensures !t.capped
    ensures t.end == (if g.numEntries == 1 then EndOfDay(g.day) else g.end)
    ensures t.spent == t.end - g.start
  {
    var end := if g.numEntries == 1 then EndOfDay(g.day) else g.end;
    if g.employee in shifts then
      var shiftEnd := DayStart(g.day) + EndSeconds(shifts[g.employee].end);
      if end > shiftEnd then
        if Hour(end) >= NOON_HOUR then MainTiming(end - g.start, false, end)
        else MainTiming(end - g.start, false, end)
      else MainTiming(end - g.start, false, end)
    else MainTiming(end - g.start, false, end)
  }

  /** The shift table never changes the timing: with or without a shift the result is the same. */
  lemma ShiftNeverChangesTiming(g: Grouping.Group, shifts: map<string, MainShift>)
    requires g.employee in shifts ==> Usable(shifts[g.employee].end)
    ensures MainTimeSpent(g, shifts) == MainTimeSpent(g, map[])
  {
  }

  /**
   * A single-punch day runs from the punch to 23:59:59 of the day it is
   * credited to: an ordinary punch gets the rest of its own date, but one
   * credited to the previous day gets a negative time spent.
   */
  lemma SinglePunchTime(g: Grouping.Group, shifts: map<string, MainShift>)
    requires g.employee in shifts ==> Usable(shifts[g.employee].end)
    requires g.numEntries == 1
    ensures g.day == DayOf(g.start) ==>
              MainTimeSpent(g, shifts).spent == LAST_SECOND_OF_DAY - TimeOfDay(g.start) >= 0
    ensures g.day == DayOf(g.start) - 1 ==>
              MainTimeSpent(g, shifts).spent == -1 - TimeOfDay(g.start) < 0
  {
    assert g.start == DayStart(DayOf(g.start)) + TimeOfDay(g.start);
  }

  /**
   * The row a group becomes: its key, `worked` and never capped, the group's
   * first punch and devices, an end at the group's last punch (23:59:59 of
   * the day for a single punch) and the time from start to that end.
   */
  predicate RowOfGroup(r: Record, g: Grouping.Group) {
    && RecordKey(r) == Grouping.GroupKey(g) && r.status == Worked && !r.capped
    && r.start == Some(g.start) && r.startSn == g.startSn && r.endSn == g.endSn
    && r.end == Some(if g.numEntries == 1 then EndOfDay(g.day) else g.end)
    && r.timeSpent == r.end.value - g.start
  }

  /** One grouped row with its timing columns. */
  function MainWorkedRow(g: Grouping.Group, shifts: map<string, MainShift>): (r: Record)
    requires g.employee in shifts ==> Usable(shifts[g.employee].end)
    ensures RowOfGroup(r, g)
  {
    var t := MainTimeSpent(g, shifts);
    Record(g.employee, g.day, Some(g.start), Some(t.end), g.startSn, g.endSn, t.spent, Worked, t.capped)
  }

  /** Grouped rows of processed entries belong to punching employees, whose shift ends convert. */
  lemma GroupEmployeeUsable(punches: seq<Punch>, shifts: map<string, MainShift>, i: int)
    requires UsableFor(punches, shifts)
    requires 0 <= i < |Grouping.GroupBy(ProcessedEntries(punches, shifts))|
    ensures var g := Grouping.GroupBy(ProcessedEntries(punches, shifts))[i];
            g.employee in shifts ==> Usable(shifts[g.employee].end)
  {
    var es := ProcessedEntries(punches, shifts);
    var g := Grouping.GroupBy(es)[i];
    Grouping.GroupBySortedAndComplete(es);
    assert Grouping.GroupKeys(es)[i] in Grouping.GroupKeys(es);
    var j :| 0 <= j < |es| && Grouping.EntryKey(es[j]) == Grouping.GroupKey(g);
    ProcessedEntriesFacts(punches, shifts);
    assert PunchOf(es[j]) == Punches(es)[j];
    assert PunchOf(es[j]) in multiset(punches);
  }

  /** The timed grouped rows, in the sorted key order of the grouping. */
  function MainWorkedSummary(punches: seq<Punch>, shifts: map<string, MainShift>): (ws: seq<Record>)
    requires UsableFor(punches, shifts)
    ensures var groups := Grouping.GroupBy(ProcessedEntries(punches, shifts));
            |ws| == |groups| && forall i :: 0 <= i < |ws| ==> RowOfGroup(ws[i], groups[i])
  {
    var groups := Grouping.GroupBy(ProcessedEntries(punches, shifts));
    seq(|groups|, i requires 0 <= i < |groups| =>
      GroupEmployeeUsable(punches, shifts, i);
      MainWorkedRow(groups[i], shifts))
  }

  /** The summary `process_attendance_summary` of this pipeline returns. */
  function MainSummary(columnsPresent: bool, punches: seq<Punch>, shifts: map<string, MainShift>): Table
    requires columnsPresent && punches != [] ==> UsableFor(punches, shifts)
  {
    if !columnsPresent || punches == [] then Table(SUMMARY_COLUMNS, [])
    else Table(WORKED_COLUMNS, MainWorkedSummary(punches, shifts))
  }

  /** `generate_complete_records` of this pipeline: the worked rows, copied one by one. */
  method GenerateCompleteRecords(worked: seq<Record>) returns (records: seq<Record>)
    ensures records == worked
  {
    records := [];
    if worked == [] {
      return;
    }
    var i := 0;
    while i < |worked|
      invariant 0 <= i <= |worked|
      invariant records == worked[..i]
    {
      records := records + [worked[i]];
      i := i + 1;
    }
  }

  /**
   * `process_attendance_summary` of this pipeline.  The closing `sort_values`
   * leaves the rows where they are: `MainSummaryFacts` shows they are already
   * in `(employee_id, day)` order.
   */
  method ProcessAttendanceSummary(columnsPresent: bool, attendances: seq<Punch>, mappings: seq<MainShiftMapping>)
    returns (summary: Table)
    requires columnsPresent && attendances != [] ==> UsableFor(attendances, ShiftTable(mappings))
    ensures summary == MainSummary(columnsPresent, attendances, ShiftTable(mappings))
  {
    if !columnsPresent || attendances == [] {
      return Table(SUMMARY_COLUMNS, []);
    }
    var shifts := GetShiftMappings(mappings);
    var processed := ProcessAttendanceEntries(attendances, shifts);
    var groups := Grouping.GroupBy(processed);
    var worked := seq(|groups|, i requires 0 <= i < |groups| =>
      GroupEmployeeUsable(attendances, shifts, i);
      MainWorkedRow(groups[i], shifts));
    assert worked == MainWorkedSummary(attendances, shifts);
    var records := GenerateCompleteRecords(worked);
    summary := Table(WORKED_COLUMNS, records);
  }

  /**
   * With usable data, the summary has a `worked`, uncapped row for exactly
   * the `(employee_id, day)` keys the processed entries carry, in sorted key
   * order (so the closing sort changes nothing), and its groups account for
   * every punch once.
   */
  lemma MainSummaryFacts(columnsPresent: bool, punches: seq<Punch>, shifts: map<string, MainShift>)
    requires columnsPresent && punches != [] && UsableFor(punches, shifts)
    ensures var t := MainSummary(columnsPresent, punches, shifts);
            && t.columns == WORKED_COLUMNS
            && t.rows != []
            && SortedByKey(t.rows)
            && (forall i :: 0 <= i < |t.rows| ==> t.rows[i].status == Worked && !t.rows[i].capped)
            && |t.rows| == |Grouping.GroupBy(ProcessedEntries(punches, shifts))|
            && (forall i :: 0 <= i < |t.rows| ==>
                  RowOfGroup(t.rows[i], Grouping.GroupBy(ProcessedEntries(punches, shifts))[i]))
            && (forall k :: HasKey(t.rows, k) <==> Grouping.Occurs(ProcessedEntries(punches, shifts), k))
    ensures Grouping.TotalEntries(Grouping.GroupBy(ProcessedEntries(punches, shifts))) == |punches|
  {
    var es := ProcessedEntries(punches, shifts);
    var groups := Grouping.GroupBy(es);
    var rows := MainWorkedSummary(punches, shifts);
    ProcessedEntriesFacts(punches, shifts);
    Grouping.GroupBySortedAndComplete(es);
    Grouping.GroupByCountsEveryEntry(es);
    var keys := Grouping.GroupKeys(es);
    forall i | 0 <= i < |rows|
      ensures RecordKey(rows[i]) == keys[i] && rows[i].status == Worked && !rows[i].capped
    {
      GroupEmployeeUsable(punches, shifts, i);
    }
    KeyedRows(rows, keys);
  }

  /* ---------------------------------------------------------------------- */
  /* The date range of `main`                                                */

  /**
   * `main`'s filter: a start date keeps punches at or after its midnight, an
   * end date keeps punches at or before ITS midnight; a bound not given
   * (`None` or the empty string) does not filter.
   */
  predicate InRange(p: Punch, startDay: Option<int>, endDay: Option<int>) {
    && (startDay.Some? ==> p.ts >= DayStart(startDay.value))
    && (endDay.Some? ==> p.ts <= DayStart(endDay.value))
  }

  /** The punches `main` passes on: those in range, in their original order. */
  function FilterByDate(punches: seq<Punch>, startDay: Option<int>, endDay: Option<int>): (kept: seq<Punch>)
    ensures forall p :: p in kept <==> p in punches && InRange(p, startDay, endDay)
    ensures |kept| <= |punches|
    ensures (forall i :: 0 <= i < |punches| ==> InRange(punches[i], startDay, endDay)) ==> kept == punches
    decreases |punches|
  {
    if punches == [] then []
    else
      var init, last := punches[..|punches| - 1], punches[|punches| - 1];
      Partition.LastSplit(punches);
      FilterByDate(init, startDay, endDay) + (if InRange(last, startDay, endDay) then [last] else [])
  }

  /**
   * The filter keeps the input order: filtering two runs of punches, one
   * after the other, is filtering each run and joining the results.
   */
  lemma {:induction false} FilterByDateConcat(a: seq<Punch>, b: seq<Punch>, startDay: Option<int>, endDay: Option<int>)
    ensures FilterByDate(a + b, startDay, endDay) == FilterByDate(a, startDay, endDay) + FilterByDate(b, startDay, endDay)
    decreases |b|
  {
    if b == [] {
      assert a + b == a;
    } else {
      var init, last := b[..|b| - 1], b[|b| - 1];
      var tail := if InRange(last, startDay, endDay) then [last] else [];
      FilterByDateConcat(a, init, startDay, endDay);
      assert (a + b)[..|a + b| - 1] == a + init && (a + b)[|a + b| - 1] == last;
      assert FilterByDate(a + b, startDay, endDay) == (FilterByDate(a, startDay, endDay) + FilterByDate(init, startDay, endDay)) + tail;
      assert FilterByDate(b, startDay, endDay) == FilterByDate(init, startDay, endDay) + tail;
      Partition.ConcatAssoc(FilterByDate(a, startDay, endDay), FilterByDate(init, startDay, endDay), tail);
    }
  }

  /** The filter keeps each punch in range as often as the input holds it, and no other. */
  lemma {:induction false} FilterByDateCounts(punches: seq<Punch>, startDay: Option<int>, endDay: Option<int>)
    ensures forall p :: multiset(FilterByDate(punches, startDay, endDay))[p]
                          == if InRange(p, startDay, endDay) then multiset(punches)[p] else 0
    decreases |punches|
  {
    if punches != [] {
      var init, last := punches[..|punches| - 1], punches[|punches| - 1];
      Partition.LastSplit(punches);
      FilterByDateCounts(init, startDay, endDay);
      assert multiset(punches) == multiset(init) + multiset{last};
    }
  }

  /** Without bounds nothing is filtered. */
  lemma NoRangeKeepsEverything(punches: seq<Punch>)
    ensures FilterByDate(punches, None, None) == punches
  {
  }

  /**
   * The end date is compared with its midnight, so of the end day only a punch
   * at exactly 00:00:00 survives; every later punch of that day is dropped.
   */
  lemma EndDayExcludesLaterPunches(punches: seq<Punch>, startDay: Option<int>, endDay: int, p: Punch)
    requires DayOf(p.ts) == endDay && TimeOfDay(p.ts) > 0
    ensures p !in FilterByDate(punches, startDay, Some(endDay))
  {
  }

  /**
   * `main` up to the export: filter the punches by the optional dates, then
   * summarise them.
   */
  method SummaryForRange(columnsPresent: bool, attendances: seq<Punch>, mappings: seq<MainShiftMapping>,
                         startDay: Option<int>, endDay: Option<int>)
    returns (summary: Table)
    requires var kept := FilterByDate(attendances, startDay, endDay);
             columnsPresent && kept != [] ==> UsableFor(kept, ShiftTable(mappings))
    ensures summary == MainSummary(columnsPresent, FilterByDate(attendances, startDay, endDay), ShiftTable(mappings))
  {
    var kept := attendances;
    if startDay.Some? || endDay.Some? {
      kept := FilterByDate(attendances, startDay, endDay);
    }
    summary := ProcessAttendanceSummary(columnsPresent, kept, mappings);
  }

  /** A processed entry is one of the input's punches, credited to its own date or the day before. */
  lemma EntryFromPunch(punches: seq<Punch>, shifts: map<string, MainShift>, e: Entry)
    requires UsableFor(punches, shifts)
    requires e in ProcessedEntries(punches, shifts)
    ensures PunchOf(e) in punches
    ensures DayOf(e.ts) - 1 <= e.day <= DayOf(e.ts)
  {
    var es := ProcessedEntries(punches, shifts);
    ProcessedEntriesFacts(punches, shifts);
    var j :| 0 <= j < |es| && es[j] == e;
    assert PunchOf(es[j]) == Punches(es)[j];
    assert PunchOf(e) in multiset(punches);
  }

  /** A summary row carries the key of some processed entry. */
  lemma RowFromEntry(punches: seq<Punch>, shifts: map<string, MainShift>, i: int) returns (e: Entry)
    requires punches != [] && UsableFor(punches, shifts)
    requires 0 <= i < |MainSummary(true, punches, shifts).rows|
    ensures e in ProcessedEntries(punches, shifts)
    ensures Grouping.EntryKey(e) == RecordKey(MainSummary(true, punches, shifts).rows[i])
  {
    var rows := MainSummary(true, punches, shifts).rows;
    var es := ProcessedEntries(punches, shifts);
    MainSummaryFacts(true, punches, shifts);
    assert HasKey(rows, RecordKey(rows[i]));
    var j :| 0 <= j < |es| && Grouping.EntryKey(es[j]) == RecordKey(rows[i]);
    e := es[j];
  }

  /**
   * Since a punch is credited to its own date or the day before, no summary
   * row of a range lies after its end date, and none before the day before
   * its start date.
   */
  lemma RangeSummaryDays(punches: seq<Punch>, shifts: map<string, MainShift>,
                         startDay: Option<int>, endDay: Option<int>, i: int)
    requires var kept := FilterByDate(punches, startDay, endDay);
             kept != [] && UsableFor(kept, shifts)
    requires 0 <= i < |MainSummary(true, FilterByDate(punches, startDay, endDay), shifts).rows|
    ensures var r := MainSummary(true, FilterByDate(punches, startDay, endDay), shifts).rows[i];
            && (endDay.Some? ==> r.day <= endDay.value)
            && (startDay.Some? ==> r.day >= startDay.value - 1)
  {
    var kept := FilterByDate(punches, startDay, endDay);
    var e := RowFromEntry(kept, shifts, i);
    EntryFromPunch(kept, shifts, e);
    assert InRange(PunchOf(e), startDay, endDay);
    assert e.ts == DayStart(DayOf(e.ts)) + TimeOfDay(e.ts);
  }
}
