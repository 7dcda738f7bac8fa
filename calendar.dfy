/**
 * Calendar arithmetic on naive timestamps.
 *
 * A timestamp is a whole number of seconds since 1970-01-01 00:00:00 (no time
 * zone, as the punches are stored); a date is a whole number of days since
 * 1970-01-01.  Python's `date.weekday()` numbers Monday 0 .. Sunday 6, and
 * 1970-01-01 was a Thursday (3).
 */
module Calendar {

  const SECONDS_PER_DAY: int := 86400
  const SECONDS_PER_HOUR: int := 3600
  const SECONDS_PER_MINUTE: int := 60
  /** `timedelta(hours=8)`: the shift cap and the no-shift cap of the code. */
  const EIGHT_HOURS: int := 8 * 3600
  /** `SUNDAY_WEEKDAY` in the code. */
  const SUNDAY: int := 6
  /** `NOON_HOUR` in the code. */
  const NOON_HOUR: int := 12
  /** `23:59:59` as seconds after midnight. */
  const LAST_SECOND_OF_DAY: int := 86399

  /** `timestamp.date()`: the calendar day a timestamp falls on. */
  function DayOf(ts: int): int {
    ts / SECONDS_PER_DAY
  }

  /** Midnight at the start of day `d` (`pd.to_datetime(day)`). */
  function DayStart(d: int): int {
    d * SECONDS_PER_DAY
  }

  /** `timestamp.time()` as seconds after midnight. */
  function TimeOfDay(ts: int): (r: int)
    ensures 0 <= r < SECONDS_PER_DAY
    ensures ts == DayStart(DayOf(ts)) + r
  {
    ts % SECONDS_PER_DAY
  }

  /** `timestamp.hour`. */
  function Hour(ts: int): (h: int)
    ensures 0 <= h < 24
    ensures h * SECONDS_PER_HOUR <= TimeOfDay(ts) < (h + 1) * SECONDS_PER_HOUR
  {
    TimeOfDay(ts) / SECONDS_PER_HOUR
  }

  /** `timestamp.minute`. */
  function Minute(ts: int): (m: int)
    ensures 0 <= m < 60
    ensures Hour(ts) * SECONDS_PER_HOUR + m * SECONDS_PER_MINUTE <= TimeOfDay(ts)
    ensures TimeOfDay(ts) < Hour(ts) * SECONDS_PER_HOUR + (m + 1) * SECONDS_PER_MINUTE
  {
    (TimeOfDay(ts) % SECONDS_PER_HOUR) / SECONDS_PER_MINUTE
  }

  lemma DivModUnique(n: int, d: int, q: int, r: int)
    requires d > 0 && n == q * d + r && 0 <= r < d
    ensures n / d == q && n % d == r
  {
    var q', r' := n / d, n % d;
    assert (q' - q) * d == r - r';
    MulAwayFromZero(q' - q, d);
  }

  lemma MulAwayFromZero(k: int, d: int)
    requires d > 0
    ensures k == 0 || k * d >= d || k * d <= -d
  {
    if k >= 1 {
      assert k * d == (k - 1) * d + d;
      assert (k - 1) * d >= 0;
    } else if k <= -1 {
      assert k * d == (k + 1) * d - d;
      assert (k + 1) * d <= 0;
    }
  }

  /** A time of day on a given date lands on that date, at that time. */
  lemma DayOfTime(d: int, s: int)
    requires 0 <= s < SECONDS_PER_DAY
    ensures DayOf(DayStart(d) + s) == d && TimeOfDay(DayStart(d) + s) == s
  {
    DivModUnique(DayStart(d) + s, SECONDS_PER_DAY, d, s);
  }

  /** `date.weekday()`: Monday 0 .. Sunday 6. */
  function Weekday(d: int): (w: int)
    ensures 0 <= w < 7
    ensures w == 0 <==> d % 7 == 4
    ensures w == SUNDAY <==> d % 7 == 3
  {
    (d + 3) % 7
  }

  /** Is `d` after (or equal to) every element, strictly increasing. */
  ghost predicate StrictlyIncreasing(ds: seq<int>) {
    forall i, j :: 0 <= i < j < |ds| ==> ds[i] < ds[j]
  }

  /**
   * `[d for d in pd.date_range(lo, hi, freq="D").date if weekday(d) != 6]`:
   * the days from `lo` to `hi`, both included, without Sundays, in order.
   * A range whose end is before its start is empty.
   */
  function WorkingDays(lo: int, hi: int): (ds: seq<int>)
    ensures forall d :: d in ds <==> lo <= d <= hi && Weekday(d) != SUNDAY
    ensures StrictlyIncreasing(ds)
    ensures forall i :: 0 <= i < |ds| ==> ds[i] <= hi
    decreases hi - lo
  {
    if lo > hi then []
    else WorkingDays(lo, hi - 1) + (if Weekday(hi) != SUNDAY then [hi] else [])
  }

  /** Any seven consecutive days hold exactly six working days. */
  lemma {:induction false} WeekHasSixWorkingDays(lo: int)
    ensures |WorkingDays(lo, lo + 6)| == 6
  {
    var sunday := lo + (3 - lo) % 7;
    assert Weekday(sunday) == SUNDAY;
    CountWorking(lo, lo + 6, sunday);
  }

  /** Counting helper: a stretch of at most a week with one known Sunday. */
  lemma {:induction false} CountWorking(lo: int, hi: int, sunday: int)
    requires lo <= hi <= lo + 6 && lo <= sunday <= lo + 6
    requires Weekday(sunday) == SUNDAY
    requires forall d :: lo <= d <= hi && d != sunday ==> Weekday(d) != SUNDAY
    ensures |WorkingDays(lo, hi)| == (hi - lo + 1) - (if sunday <= hi then 1 else 0)
    decreases hi - lo
  {
    assert WorkingDays(lo, hi) == WorkingDays(lo, hi - 1) + (if Weekday(hi) != SUNDAY then [hi] else []);
    if hi > lo {
      CountWorking(lo, hi - 1, sunday);
    } else {
      assert WorkingDays(lo, hi - 1) == [];
    }
  }
}
