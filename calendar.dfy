/**
 * Proleptic Gregorian dates as Python's `datetime.date` handles them:
 * validity (what the constructor accepts), the day ordinal of
 * `date.toordinal()` and `date.weekday()` with Monday = 0.
 */
module Calendar {

  datatype Date = Date(year: int, month: int, day: int)

  predicate IsLeap(y: int) {
    y % 4 == 0 && (y % 100 != 0 || y % 400 == 0)
  }

  function DaysInMonth(y: int, m: int): (n: int)
    requires 1 <= m <= 12
    ensures 28 <= n <= 31
  {
    if m == 2 then (if IsLeap(y) then 29 else 28)
    else if m == 4 || m == 6 || m == 9 || m == 11 then 30
    else 31
  }

  /** What `date(y, m, d)` accepts without raising `ValueError`. */
  predicate ValidYmd(y: int, m: int, d: int) {
    1 <= y <= 9999 && 1 <= m <= 12 && 1 <= d <= DaysInMonth(y, m)
  }

  predicate Valid(d: Date) {
    ValidYmd(d.year, d.month, d.day)
  }

  function DaysBeforeYear(y: int): int
    requires y >= 1
  {
    var p := y - 1;
    p * 365 + p / 4 - p / 100 + p / 400
  }

  function DaysBeforeMonth(y: int, m: int): int
    requires 1 <= m <= 12
  {
    [0, 31, 59, 90, 120, 151, 181, 212, 243, 273, 304, 334][m - 1] + (if m > 2 && IsLeap(y) then 1 else 0)
  }

  /** `date(y, m, d).toordinal()`: 0001-01-01 is day 1. */
  function Ordinal(y: int, m: int, d: int): int
    requires ValidYmd(y, m, d)
  {
    DaysBeforeYear(y) + DaysBeforeMonth(y, m) + d
  }

  /** `date(y, m, d).weekday()`: 0 = Monday, ..., 5 = Saturday, 6 = Sunday. */
  function Weekday(y: int, m: int, d: int): (w: int)
    requires ValidYmd(y, m, d)
    ensures 0 <= w < 7
  {
    (Ordinal(y, m, d) + 6) % 7
  }

  function DateWeekday(d: Date): (w: int)
    requires Valid(d)
    ensures 0 <= w < 7
  {
    Weekday(d.year, d.month, d.day)
  }

  /** The ordinal counts days: the day after the last of a month is the first of the next one. */
  lemma {:induction false} OrdinalMonthStep(y: int, m: int)
    requires 1 <= y <= 9999 && 1 <= m < 12
    ensures Ordinal(y, m + 1, 1) == Ordinal(y, m, DaysInMonth(y, m)) + 1
  {
  }

  /** Dividing the next number by `n` gives one more exactly when the next number is a multiple of `n`. */
  lemma DivNext(p: int, n: int)
    requires n == 4 || n == 100 || n == 400
    ensures (p + 1) / n == p / n + (if (p + 1) % n == 0 then 1 else 0)
  {
    var q, r := p / n, p % n;
    assert p == n * q + r && 0 <= r < n;
    if r + 1 < n {
      assert p + 1 == n * q + (r + 1);
    } else {
      assert p + 1 == n * (q + 1);
    }
  }

  /** The year before `y + 1` has 365 days, one more in a leap year. */
  lemma DaysBeforeNextYear(y: int)
    requires y >= 1
    ensures DaysBeforeYear(y + 1) == DaysBeforeYear(y) + 365 + (if IsLeap(y) then 1 else 0)
  {
    DivNext(y - 1, 4);
    DivNext(y - 1, 100);
    DivNext(y - 1, 400);
  }

  /** The day after 31 December is 1 January of the next year. */
  lemma OrdinalYearStep(y: int)
    requires 1 <= y < 9999
    ensures Ordinal(y + 1, 1, 1) == Ordinal(y, 12, 31) + 1
  {
    DaysBeforeNextYear(y);
  }

  lemma ModNext(o: int)
    ensures (o + 1) % 7 == (o % 7 + 1) % 7
  {
    var q, r := o / 7, o % 7;
    assert o == 7 * q + r;
    if r < 6 {
      assert o + 1 == 7 * q + (r + 1);
    } else {
      assert o + 1 == 7 * (q + 1);
    }
  }

  /** Consecutive days have consecutive weekdays. */
  lemma NextDayWeekday(y: int, m: int, d: int)
    requires ValidYmd(y, m, d) && ValidYmd(y, m, d + 1)
    ensures Weekday(y, m, d + 1) == (Weekday(y, m, d) + 1) % 7
  {
    var o := Ordinal(y, m, d);
    assert Ordinal(y, m, d + 1) == o + 1;
    ModNext(o + 6);
  }

  /** Fixed points: 0001-01-01 and 2026-02-02 were Mondays, 2026-03-01 a Sunday. */
  lemma KnownWeekdays()
    ensures Weekday(1, 1, 1) == 0
    ensures Weekday(2026, 2, 2) == 0
    ensures Weekday(2026, 3, 1) == 6
  {
  }

  /** Python's `a < b` on dates. */
  predicate Before(a: Date, b: Date) {
    a.year < b.year || (a.year == b.year && (a.month < b.month || (a.month == b.month && a.day < b.day)))
  }

  /** Python's `a <= b` on dates. */
  predicate AtOrBefore(a: Date, b: Date) {
    Before(a, b) || a == b
  }

  /** An integer key whose order is the date order (used to sort dates). */
  function DateKey(d: Date): int {
    d.year * 10000 + d.month * 100 + d.day
  }

  lemma DateKeyOrder(a: Date, b: Date)
    requires Valid(a) && Valid(b)
    ensures Before(a, b) <==> DateKey(a) < DateKey(b)
    ensures a == b <==> DateKey(a) == DateKey(b)
  {
  }
}
