/**
 * Python's `date` and `datetime` as the bots use them: the proleptic Gregorian
 * calendar for years 1 to 9999, `date.toordinal()`, and the floored day count
 * `timedelta.days` of the difference of two instants. Instants carry Python's
 * microsecond resolution; there are no time zones (`datetime.now()` is naive).
 */
module Calendar {

  datatype Date = Date(year: int, month: int, day: int)

  /** A naive `datetime`. */
  datatype DateTime = DateTime(date: Date, hour: int, minute: int, second: int, microsecond: int)

  const MinYear := 1
  const MaxYear := 9999
  const MicrosPerDay := 86_400_000_000

  predicate IsLeapYear(y: int) {
    y % 4 == 0 && (y % 100 != 0 || y % 400 == 0)
  }

  function DaysInMonth(y: int, m: int): (n: int)
    ensures 28 <= n <= 31
  {
    if m == 2 then (if IsLeapYear(y) then 29 else 28)
    else if m == 4 || m == 6 || m == 9 || m == 11 then 30
    else 31
  }

  /** What the `date` constructor accepts; anything else raises `ValueError`. */
  predicate ValidDate(d: Date) {
    MinYear <= d.year <= MaxYear && 1 <= d.month <= 12 && 1 <= d.day <= DaysInMonth(d.year, d.month)
  }

  predicate ValidDateTime(t: DateTime) {
    && ValidDate(t.date)
    && 0 <= t.hour < 24 && 0 <= t.minute < 60 && 0 <= t.second < 60
    && 0 <= t.microsecond < 1_000_000
  }

  /** Days in the years before year `y`. */
  function DaysBeforeYear(y: int): int {
    var p := y - 1;
    p * 365 + p / 4 - p / 100 + p / 400
  }

  /** Days in the months of year `y` before month `m`. */
  function DaysBeforeMonth(y: int, m: int): int
    decreases m
  {
    if m <= 1 then 0 else DaysBeforeMonth(y, m - 1) + DaysInMonth(y, m - 1)
  }

  /** `date.toordinal()`: 1 January of year 1 is day 1. */
  function Ordinal(d: Date): int {
    DaysBeforeYear(d.year) + DaysBeforeMonth(d.year, d.month) + d.day
  }

  /** The calendar day after `d`. */
  function NextDay(d: Date): Date {
    if d.day < DaysInMonth(d.year, d.month) then Date(d.year, d.month, d.day + 1)
    else if d.month < 12 then Date(d.year, d.month + 1, 1)
    else Date(d.year + 1, 1, 1)
  }

  lemma DaysInYear(y: int)
    ensures DaysBeforeMonth(y, 12) + DaysInMonth(y, 12) == if IsLeapYear(y) then 366 else 365
  {
  }

  lemma {:induction false} YearLength(y: int)
    requires y >= 1
    ensures DaysBeforeYear(y + 1) - DaysBeforeYear(y) == if IsLeapYear(y) then 366 else 365
  {
    var p := y - 1;
    assert (p + 1) / 4 == p / 4 + (if y % 4 == 0 then 1 else 0);
    assert (p + 1) / 100 == p / 100 + (if y % 100 == 0 then 1 else 0);
    assert (p + 1) / 400 == p / 400 + (if y % 400 == 0 then 1 else 0);
  }

  /**
   * The ordinal counts days: the day after a valid date is valid (up to the
   * last day `date` can represent) and has the next ordinal.
   */
  lemma OrdinalOfNextDay(d: Date)
    requires ValidDate(d) && d != Date(MaxYear, 12, 31)
    ensures ValidDate(NextDay(d)) && Ordinal(NextDay(d)) == Ordinal(d) + 1
  {
    if d.day == DaysInMonth(d.year, d.month) && d.month == 12 {
      YearLength(d.year);
      DaysInYear(d.year);
    }
  }

  /** The whole instant in microseconds since the start of day 0. */
  function Micros(t: DateTime): int {
    ((((Ordinal(t.date) * 24 + t.hour) * 60 + t.minute) * 60 + t.second) * 1_000_000) + t.microsecond
  }

  /** Microseconds since midnight. */
  function TimeOfDay(t: DateTime): int {
    (((t.hour * 60 + t.minute) * 60 + t.second) * 1_000_000) + t.microsecond
  }

  /** `datetime.strptime(str(d), "%Y-%m-%d")`: the start of day `d`. */
  function Midnight(d: Date): (t: DateTime)
    ensures t.date == d && (ValidDate(d) ==> ValidDateTime(t))
    ensures Micros(t) == Ordinal(d) * MicrosPerDay
  {
    DateTime(d, 0, 0, 0, 0)
  }

  /** `(target - now).days`: Python normalises a `timedelta` so that its `days` is the floor of the difference. */
  function DaysBetween(target: DateTime, now: DateTime): (days: int)
    ensures days * MicrosPerDay <= Micros(target) - Micros(now) < days * MicrosPerDay + MicrosPerDay
  {
    var x := Micros(target) - Micros(now);
    FloorDays(x, x / MicrosPerDay);
    x / MicrosPerDay
  }

  /** Floor division by one day is determined by the window the difference falls in. */
  lemma {:induction false} FloorDays(x: int, q: int)
    ensures x / MicrosPerDay == q <==> q * MicrosPerDay <= x < q * MicrosPerDay + MicrosPerDay
  {
    var r := x / MicrosPerDay;
    assert x == r * MicrosPerDay + x % MicrosPerDay;
    if r < q {
      assert r * MicrosPerDay + MicrosPerDay <= q * MicrosPerDay;
    } else if r > q {
      assert q * MicrosPerDay + MicrosPerDay <= r * MicrosPerDay;
    }
  }

  lemma TimeOfDayBounds(t: DateTime)
    requires ValidDateTime(t)
    ensures 0 <= TimeOfDay(t) < MicrosPerDay
    ensures Micros(t) == Ordinal(t.date) * MicrosPerDay + TimeOfDay(t)
  {
  }

  /**
   * Seen from an instant on calendar day D, the floored day count to the
   * midnight that starts day D + n is n when the instant is itself a
   * midnight and n - 1 at any later moment of day D.
   */
  lemma DaysToMidnight(target: Date, now: DateTime, n: int)
    requires ValidDateTime(now) && Ordinal(target) == Ordinal(now.date) + n
    ensures DaysBetween(Midnight(target), now) == if TimeOfDay(now) == 0 then n else n - 1
  {
    TimeOfDayBounds(now);
    var x := Micros(Midnight(target)) - Micros(now);
    assert x == n * MicrosPerDay - TimeOfDay(now);
    if TimeOfDay(now) == 0 {
      FloorDays(x, n);
    } else {
      FloorDays(x, n - 1);
    }
  }
}
