/**
 * The rows that flow through both pipelines: raw punches, punches tagged with
 * the day they count for, and the per-employee, per-day summary records.
 */
module Records {
  import opened Wrappers
  import Text

  /** One row of the `attendances` table: who punched, when, on which device (`sn`). */
  datatype Punch = Punch(employee: string, ts: int, sn: string)

  /** A processed punch: the columns `employee_id`, `timestamp`, `sn` and the assigned `day`. */
  datatype Entry = Entry(employee: string, ts: int, sn: string, day: int)

  /** `work_status`: `"worked"` or `"absent"`. */
  datatype Status = Worked | Absent

  /**
   * One row of the attendance summary.  `start`/`end` are `None` where the
   * frame holds `NaT`; `timeSpent` is the `time_spent` duration in seconds.
   */
  datatype Record = Record(
    employee: string,
    day: int,
    start: Option<int>,
    end: Option<int>,
    startSn: string,
    endSn: string,
    timeSpent: int,
    status: Status,
    capped: bool)

  /** The synthesised row for a day without punches. */
  function AbsentRecord(employee: string, day: int): Record {
    Record(employee, day, None, None, "", "", 0, Absent, false)
  }

  /** A table: its column names and its rows. */
  datatype Table = Table(columns: seq<string>, rows: seq<Record>)

  /** The nine columns of an empty summary, in the order the code lists them. */
  const SUMMARY_COLUMNS: seq<string> :=
    ["employee_id", "day", "start_time", "end_time", "start_device_sn",
     "end_device_sn", "time_spent", "work_status", "shift_capped"]

  /** The same nine columns in the order a grouped, timed summary carries them. */
  const WORKED_COLUMNS: seq<string> :=
    ["employee_id", "day", "start_time", "end_time", "start_device_sn",
     "end_device_sn", "work_status", "time_spent", "shift_capped"]

  /** A frame built from records gets its columns from the first record's keys. */
  function ColumnsOf(rows: seq<Record>): (cols: seq<string>)
    ensures rows != [] ==> multiset(cols) == multiset(SUMMARY_COLUMNS)
    ensures rows == [] <==> cols == []
  {
    if rows == [] then []
    else if rows[0].status == Worked then WorkedColumnsPermuted(); WORKED_COLUMNS
    else SUMMARY_COLUMNS
  }

  /** The grouped order only swaps `work_status` and `time_spent`. */
  lemma WorkedColumnsPermuted()
    ensures multiset(WORKED_COLUMNS) == multiset(SUMMARY_COLUMNS)
  {
    var front, back := SUMMARY_COLUMNS[..6], SUMMARY_COLUMNS[8..];
    assert SUMMARY_COLUMNS == front + [SUMMARY_COLUMNS[6], SUMMARY_COLUMNS[7]] + back;
    assert WORKED_COLUMNS == front + [SUMMARY_COLUMNS[7], SUMMARY_COLUMNS[6]] + back;
  }

  /** The `(employee_id, day)` key that groups and sorts summaries. */
  datatype Key = Key(employee: string, day: int)

  function RecordKey(r: Record): Key {
    Key(r.employee, r.day)
  }

  /** The order of `sort_values(["employee_id", "day"])`. */
  predicate KeyLt(a: Key, b: Key) {
    Text.Lt(a.employee, b.employee) || (a.employee == b.employee && a.day < b.day)
  }

  lemma KeyLtIrreflexive(a: Key)
    ensures !KeyLt(a, a)
  {
    Text.LtIrreflexive(a.employee);
  }

  lemma KeyLtTotal(a: Key, b: Key)
    ensures a == b || KeyLt(a, b) || KeyLt(b, a)
  {
    Text.LtTotal(a.employee, b.employee);
  }

  lemma KeyLtTransitive(a: Key, b: Key, c: Key)
    requires KeyLt(a, b) && KeyLt(b, c)
    ensures KeyLt(a, c)
  {
    if Text.Lt(a.employee, b.employee) && Text.Lt(b.employee, c.employee) {
      Text.LtTransitive(a.employee, b.employee, c.employee);
    }
  }

  /** Strictly increasing keys: sorted, and no `(employee, day)` twice. */
  ghost predicate StrictlySorted(ks: seq<Key>) {
    forall i, j :: 0 <= i < j < |ks| ==> KeyLt(ks[i], ks[j])
  }

  /** Records sorted by `(employee_id, day)` with no key repeated. */
  ghost predicate SortedByKey(rs: seq<Record>) {
    forall i, j :: 0 <= i < j < |rs| ==> KeyLt(RecordKey(rs[i]), RecordKey(rs[j]))
  }

  /** Some row of `rs` has key `k`. */
  ghost predicate HasKey(rs: seq<Record>, k: Key) {
    exists i :: 0 <= i < |rs| && RecordKey(rs[i]) == k
  }

  /** Rows carrying, in order, the keys of a strictly sorted key list are sorted and have exactly those keys. */
  lemma KeyedRows(ws: seq<Record>, keys: seq<Key>)
    requires |ws| == |keys|
    requires forall i :: 0 <= i < |ws| ==> RecordKey(ws[i]) == keys[i]
    requires StrictlySorted(keys)
    ensures SortedByKey(ws)
    ensures forall k :: HasKey(ws, k) <==> k in keys
  {
    forall k ensures HasKey(ws, k) <==> k in keys {
      if k in keys {
        var i :| 0 <= i < |keys| && keys[i] == k;
        assert RecordKey(ws[i]) == k;
      }
    }
  }

  /** Under a strict order, a sorted sequence never repeats a key. */
  lemma SortedByKeyUnique(rs: seq<Record>, i: int, j: int)
    requires SortedByKey(rs)
    requires 0 <= i < |rs| && 0 <= j < |rs| && i != j
    ensures RecordKey(rs[i]) != RecordKey(rs[j])
  {
    KeyLtIrreflexive(RecordKey(rs[i]));
  }
}
