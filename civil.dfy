/**
 * The proleptic Gregorian calendar over day numbers (day 0 is 1970-01-01).
 * The JavaScript `Date` arithmetic of the calendar works on UTC milliseconds;
 * this module gives the civil year/month/day behind such a day number, which
 * start/end of month and year and `Date.UTC(year, month, day)` need.
 */
module Civil {

  datatype Date = Date(year: int, month: int, day: int)

  predicate IsLeapYear(y: int) {
    (y % 4 == 0 && y % 100 != 0) || y % 400 == 0
  }

  function DaysInYear(y: int): (n: int)
    ensures n == 365 || n == 366
  {
    if IsLeapYear(y) then 366 else 365
  }

  function DaysInMonth(y: int, m: int): (n: int)
    requires 1 <= m <= 12
    ensures 28 <= n <= 31
    ensures n == 29 <==> m == 2 && IsLeapYear(y)
  {
    if m == 2 then (if IsLeapYear(y) then 29 else 28)
    else if m == 4 || m == 6 || m == 9 || m == 11 then 30
    else 31
  }

  /** Number of days of year `y` that lie before the first of month `m` (13 means the year's end). */
  function DaysBeforeMonth(y: int, m: int): (n: nat)
    requires 1 <= m <= 13
    decreases m
  {
    if m == 1 then 0 else DaysBeforeMonth(y, m - 1) + DaysInMonth(y, m - 1)
  }

  /** Day number of January 1st of year `y`. */
  function YearStart(y: int): int
    decreases if y >= 1970 then y - 1970 else 1970 - y
  {
    if y == 1970 then 0
    else if y > 1970 then YearStart(y - 1) + DaysInYear(y - 1)
    else YearStart(y + 1) - DaysInYear(y)
  }

  predicate Valid(d: Date) {
    1 <= d.month <= 12 && 1 <= d.day <= DaysInMonth(d.year, d.month)
  }

  /** Day number of a civil date. */
  function DaysFromCivil(d: Date): int
    requires Valid(d)
  {
    YearStart(d.year) + DaysBeforeMonth(d.year, d.month) + d.day - 1
  }

  /** Day of the week of a day number, Sunday = 0 as `Date.prototype.getUTCDay`; 1970-01-01 was a Thursday. */
  function Weekday(n: int): (w: int)
    ensures 0 <= w < 7
  {
    (n + 4) % 7
  }

  /** 2000-01-01 was a Saturday, which pins the epoch offset of Weekday. */
  lemma WeekdayAnchor()
    ensures Weekday(DaysFromCivil(Date(2000, 1, 1))) == 6
  {
    assert YearStart(1975) == 1826;
    assert YearStart(1980) == 3652;
    assert YearStart(1985) == 5479;
    assert YearStart(1990) == 7305;
    assert YearStart(1995) == 9131;
    assert YearStart(2000) == 10957;
  }

  /** Weekdays repeat every seven days. */
  lemma WeekdayPeriodic(n: int, k: int)
    ensures Weekday(n + 7 * k) == Weekday(n)
  {
    var q := (n + 4) / 7;
    assert n + 7 * k + 4 == 7 * (q + k) + Weekday(n);
  }

  lemma YearStartStep(y: int)
    ensures YearStart(y + 1) == YearStart(y) + DaysInYear(y)
  {
  }

  lemma {:induction false} YearStartMonotone(a: int, b: int)
    requires a < b
    ensures YearStart(a + 1) <= YearStart(b)
    decreases b - a
  {
    if b > a + 1 {
      YearStartMonotone(a, b - 1);
      YearStartStep(b - 1);
    }
  }

  lemma {:induction false} DaysBeforeMonthMonotone(y: int, a: int, b: int)
    requires 1 <= a < b <= 13
    ensures DaysBeforeMonth(y, a + 1) <= DaysBeforeMonth(y, b)
    decreases b - a
  {
    if b > a + 1 {
      DaysBeforeMonthMonotone(y, a, b - 1);
    }
  }

  /** The twelve months exactly fill the year. */
  lemma MonthsFillYear(y: int)
    ensures DaysBeforeMonth(y, 13) == DaysInYear(y)
    ensures DaysBeforeMonth(y, 12) == DaysInYear(y) - 31
  {
    assert DaysBeforeMonth(y, 3) == 31 + DaysInMonth(y, 2);
    assert DaysBeforeMonth(y, 7) == DaysBeforeMonth(y, 3) + 122;
    assert DaysBeforeMonth(y, 12) == DaysBeforeMonth(y, 7) + 153;
  }

  /** Search forward from year `y` for the year containing day `n`. */
  function YearForward(n: int, y: int): (r: int)
    requires YearStart(y) <= n
    ensures YearStart(r) <= n < YearStart(r + 1)
    decreases n - YearStart(y)
  {
    YearStartStep(y);
    if n < YearStart(y + 1) then y else YearForward(n, y + 1)
  }

  /** Search backward from year `y` for the year containing day `n`. */
  function YearBackward(n: int, y: int): (r: int)
    requires n < YearStart(y + 1)
    ensures YearStart(r) <= n < YearStart(r + 1)
    decreases YearStart(y + 1) - n
  {
    YearStartStep(y);
    if YearStart(y) <= n then y else YearBackward(n, y - 1)
  }

  /** The year containing day `n`. */
  function YearOf(n: int): (r: int)
    ensures YearStart(r) <= n < YearStart(r + 1)
  {
    if n >= 0 then YearForward(n, 1970) else YearBackward(n, 1969)
  }

  /** The month of year `y` containing its `k`-th day (counting from 0), searching from month `m`. */
  function MonthFrom(y: int, k: int, m: int): (r: int)
    requires 1 <= m <= 12
    requires DaysBeforeMonth(y, m) <= k < DaysBeforeMonth(y, 13)
    ensures m <= r <= 12
    ensures DaysBeforeMonth(y, r) <= k < DaysBeforeMonth(y, r + 1)
    decreases 12 - m
  {
    if k < DaysBeforeMonth(y, m + 1) then m else MonthFrom(y, k, m + 1)
  }

  /** The civil date of a day number. */
  function CivilFromDays(n: int): (d: Date)
    ensures Valid(d)
    ensures DaysFromCivil(d) == n
  {
    var y := YearOf(n);
    YearStartStep(y);
    MonthsFillYear(y);
    var k := n - YearStart(y);
    var m := MonthFrom(y, k, 1);
    Date(y, m, k - DaysBeforeMonth(y, m) + 1)
  }

  /** A valid civil date lies within its own year and month. */
  lemma DateWithinYear(d: Date)
    requires Valid(d)
    ensures YearStart(d.year) <= DaysFromCivil(d) < YearStart(d.year + 1)
    ensures DaysBeforeMonth(d.year, d.month) <= DaysFromCivil(d) - YearStart(d.year) < DaysBeforeMonth(d.year, d.month + 1)
  {
    YearStartStep(d.year);
    MonthsFillYear(d.year);
    if d.month < 12 {
      DaysBeforeMonthMonotone(d.year, d.month, 13);
    }
  }

  /** CivilFromDays is the inverse of DaysFromCivil on valid dates. */
  lemma CivilRoundTrip(d: Date)
    requires Valid(d)
    ensures CivilFromDays(DaysFromCivil(d)) == d
  {
    var n := DaysFromCivil(d);
    var c := CivilFromDays(n);
    DateWithinYear(d);
    DateWithinYear(c);
    if c.year < d.year {
      YearStartMonotone(c.year, d.year);
    } else if d.year < c.year {
      YearStartMonotone(d.year, c.year);
    }
    assert c.year == d.year;
    if c.month < d.month {
      DaysBeforeMonthMonotone(d.year, c.month, d.month);
    } else if d.month < c.month {
      DaysBeforeMonthMonotone(d.year, d.month, c.month);
    }
  }

  /** The first and last day of the month containing day `n` enclose it. */
  lemma MonthEncloses(n: int)
    ensures var c := CivilFromDays(n);
      DaysFromCivil(Date(c.year, c.month, 1)) <= n <= DaysFromCivil(Date(c.year, c.month, DaysInMonth(c.year, c.month)))
  {
  }

  /** January 1st and December 31st of the year containing day `n` enclose it. */
  lemma YearEncloses(n: int)
    ensures var c := CivilFromDays(n);
      DaysFromCivil(Date(c.year, 1, 1)) <= n <= DaysFromCivil(Date(c.year, 12, 31))
  {
    var c := CivilFromDays(n);
    DateWithinYear(c);
    YearStartStep(c.year);
    MonthsFillYear(c.year);
  }

}
