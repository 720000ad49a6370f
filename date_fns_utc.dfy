/**
 * The UTC flavour of the date-fns helpers the calendar calls (start/end of
 * day, week, month and year, adding days and weeks). A `Date` is its UTC
 * timestamp in milliseconds; start-of helpers yield midnight, end-of helpers
 * yield 23:59:59.999 of the last day.
 */
module DateFnsUtc {
  import Civil

  const MILLISECONDS_IN_MINUTE := 60000
  const MILLISECONDS_IN_DAY := 86400000
  const MILLISECONDS_IN_WEEK := 604800000

  /** The UTC day number of a timestamp (floor division, also for dates before 1970). */
  function DayNumber(t: int): int {
    t / MILLISECONDS_IN_DAY
  }

  /** Midnight of day number `n`. */
  function Midnight(n: int): (t: int)
    ensures DayNumber(t) == n
    ensures t % MILLISECONDS_IN_DAY == 0
  {
    n * MILLISECONDS_IN_DAY
  }

  function StartOfDay(t: int): (r: int)
    ensures r <= t < r + MILLISECONDS_IN_DAY
    ensures r % MILLISECONDS_IN_DAY == 0
  {
    Midnight(DayNumber(t))
  }

  function EndOfDay(t: int): (r: int)
    ensures t <= r
    ensures r + 1 == StartOfDay(t) + MILLISECONDS_IN_DAY
  {
    Midnight(DayNumber(t)) + MILLISECONDS_IN_DAY - 1
  }

  /** date-fns accepts only 0 (Sunday) to 6 (Saturday) as `weekStartsOn` and throws a RangeError otherwise. */
  predicate ValidWeekStart(weekStartsOn: int) {
    0 <= weekStartsOn <= 6
  }

  /** Midnight at the start of a day whose weekday is `weekStartsOn`. */
  predicate WeekAligned(t: int, weekStartsOn: int) {
    t % MILLISECONDS_IN_DAY == 0 && Civil.Weekday(DayNumber(t)) == weekStartsOn
  }

  function StartOfWeek(t: int, weekStartsOn: int): (r: int)
    requires ValidWeekStart(weekStartsOn)
  {
    var day := Civil.Weekday(DayNumber(t));
    var diff := (if day < weekStartsOn then 7 else 0) + day - weekStartsOn;
    Midnight(DayNumber(t) - diff)
  }

  function EndOfWeek(t: int, weekStartsOn: int): (r: int)
    requires ValidWeekStart(weekStartsOn)
  {
    var day := Civil.Weekday(DayNumber(t));
    var diff := (if day < weekStartsOn then -7 else 0) + 6 - (day - weekStartsOn);
    Midnight(DayNumber(t) + diff) + MILLISECONDS_IN_DAY - 1
  }

  function StartOfMonth(t: int): int {
    var c := Civil.CivilFromDays(DayNumber(t));
    Midnight(Civil.DaysFromCivil(Civil.Date(c.year, c.month, 1)))
  }

  function EndOfMonth(t: int): int {
    var c := Civil.CivilFromDays(DayNumber(t));
    Midnight(Civil.DaysFromCivil(Civil.Date(c.year, c.month, Civil.DaysInMonth(c.year, c.month)))) + MILLISECONDS_IN_DAY - 1
  }

  function StartOfYear(t: int): int {
    var c := Civil.CivilFromDays(DayNumber(t));
    Midnight(Civil.DaysFromCivil(Civil.Date(c.year, 1, 1)))
  }

  function EndOfYear(t: int): int {
    var c := Civil.CivilFromDays(DayNumber(t));
    Midnight(Civil.DaysFromCivil(Civil.Date(c.year, 12, 31))) + MILLISECONDS_IN_DAY - 1
  }

  /** `amount` whole days later: the same time of day, `amount` day numbers on. */
  function AddDays(t: int, amount: int): (r: int)
    ensures DayNumber(r) == DayNumber(t) + amount
    ensures r - StartOfDay(r) == t - StartOfDay(t)
  {
    DayShift(t, amount);
    t + amount * MILLISECONDS_IN_DAY
  }

  /** `amount` whole weeks later: the same time of day and the same weekday. */
  function AddWeeks(t: int, amount: int): (r: int)
    ensures DayNumber(r) == DayNumber(t) + 7 * amount
    ensures r - StartOfDay(r) == t - StartOfDay(t)
    ensures Civil.Weekday(DayNumber(r)) == Civil.Weekday(DayNumber(t))
  {
    DayShift(t, 7 * amount);
    Civil.WeekdayPeriodic(DayNumber(t), amount);
    t + amount * MILLISECONDS_IN_WEEK
  }

  /**
   * The week around `t`: it starts at the midnight of the last `weekStartsOn`
   * weekday at or before `t`, and ends one millisecond before the midnight
   * seven days later.
   */
  lemma WeekEncloses(t: int, weekStartsOn: int)
    requires ValidWeekStart(weekStartsOn)
    ensures WeekAligned(StartOfWeek(t, weekStartsOn), weekStartsOn)
    ensures StartOfWeek(t, weekStartsOn) <= StartOfDay(t) < StartOfWeek(t, weekStartsOn) + MILLISECONDS_IN_WEEK
    ensures EndOfWeek(t, weekStartsOn) + 1 == StartOfWeek(t, weekStartsOn) + MILLISECONDS_IN_WEEK
    ensures EndOfDay(t) <= EndOfWeek(t, weekStartsOn)
  {
    var n := DayNumber(t);
    var day := Civil.Weekday(n);
    var diff := (if day < weekStartsOn then 7 else 0) + day - weekStartsOn;
    assert Civil.Weekday(n - diff) == weekStartsOn;
  }

  /** The last millisecond of day `n` still belongs to day `n`. */
  lemma LastMillisecond(n: int)
    ensures DayNumber(Midnight(n) + MILLISECONDS_IN_DAY - 1) == n
  {
  }

  /** Moving a timestamp by `k` whole days moves its day number by `k`. */
  lemma DayShift(t: int, k: int)
    ensures DayNumber(t + k * MILLISECONDS_IN_DAY) == DayNumber(t) + k
  {
    var q := DayNumber(t);
    assert t + k * MILLISECONDS_IN_DAY == (q + k) * MILLISECONDS_IN_DAY + t % MILLISECONDS_IN_DAY;
  }

  /** The millisecond after the last one of day `n` is a midnight. */
  lemma AfterLastMillisecond(n: int)
    ensures (Midnight(n) + MILLISECONDS_IN_DAY - 1 + 1) % MILLISECONDS_IN_DAY == 0
  {
    assert Midnight(n) + MILLISECONDS_IN_DAY == Midnight(n + 1);
  }

  /** The whole days from the start to the end of the month around `t`. */
  lemma MonthSpan(t: int)
    ensures StartOfMonth(t) % MILLISECONDS_IN_DAY == 0
    ensures StartOfMonth(t) <= EndOfMonth(t)
    ensures (EndOfMonth(t) + 1) % MILLISECONDS_IN_DAY == 0
  {
    var c := Civil.CivilFromDays(DayNumber(t));
    AfterLastMillisecond(Civil.DaysFromCivil(Civil.Date(c.year, c.month, Civil.DaysInMonth(c.year, c.month))));
    MonthEncloses(t);
  }

  /** The whole days from the start to the end of the year around `t`. */
  lemma YearSpan(t: int)
    ensures StartOfYear(t) % MILLISECONDS_IN_DAY == 0
    ensures StartOfYear(t) <= EndOfYear(t)
    ensures (EndOfYear(t) + 1) % MILLISECONDS_IN_DAY == 0
  {
    var c := Civil.CivilFromDays(DayNumber(t));
    AfterLastMillisecond(Civil.DaysFromCivil(Civil.Date(c.year, 12, 31)));
    YearEncloses(t);
  }

  /** Start and end of the month around `t` enclose it. */
  lemma MonthEncloses(t: int)
    ensures StartOfMonth(t) <= t <= EndOfMonth(t)
  {
    Civil.MonthEncloses(DayNumber(t));
  }

  /** The start of the month around `t` is midnight of its 1st. */
  lemma StartOfMonthIsFirst(t: int)
    ensures var c := Civil.CivilFromDays(DayNumber(t));
      && StartOfMonth(t) % MILLISECONDS_IN_DAY == 0
      && Civil.CivilFromDays(DayNumber(StartOfMonth(t))) == Civil.Date(c.year, c.month, 1)
  {
    var c := Civil.CivilFromDays(DayNumber(t));
    Civil.CivilRoundTrip(Civil.Date(c.year, c.month, 1));
  }

  lemma EndOfMonthDay(t: int)
    ensures var c := Civil.CivilFromDays(DayNumber(t));
      DayNumber(EndOfMonth(t)) == Civil.DaysFromCivil(Civil.Date(c.year, c.month, Civil.DaysInMonth(c.year, c.month)))
  {
    var c := Civil.CivilFromDays(DayNumber(t));
    LastMillisecond(Civil.DaysFromCivil(Civil.Date(c.year, c.month, Civil.DaysInMonth(c.year, c.month))));
  }

  /** The end of the month around `t` falls on its last day. */
  lemma EndOfMonthIsLast(t: int)
    ensures var c := Civil.CivilFromDays(DayNumber(t));
      Civil.CivilFromDays(DayNumber(EndOfMonth(t))) == Civil.Date(c.year, c.month, Civil.DaysInMonth(c.year, c.month))
  {
    var c := Civil.CivilFromDays(DayNumber(t));
    EndOfMonthDay(t);
    Civil.CivilRoundTrip(Civil.Date(c.year, c.month, Civil.DaysInMonth(c.year, c.month)));
  }

  /** Start and end of the year around `t` enclose it. */
  lemma YearEncloses(t: int)
    ensures StartOfYear(t) <= t <= EndOfYear(t)
  {
    Civil.YearEncloses(DayNumber(t));
  }

  /** The start of the year around `t` is midnight of its January 1st. */
  lemma StartOfYearIsFirst(t: int)
    ensures var c := Civil.CivilFromDays(DayNumber(t));
      && StartOfYear(t) % MILLISECONDS_IN_DAY == 0
      && Civil.CivilFromDays(DayNumber(StartOfYear(t))) == Civil.Date(c.year, 1, 1)
  {
    var c := Civil.CivilFromDays(DayNumber(t));
    Civil.CivilRoundTrip(Civil.Date(c.year, 1, 1));
  }

  lemma EndOfYearDay(t: int)
    ensures var c := Civil.CivilFromDays(DayNumber(t));
      DayNumber(EndOfYear(t)) == Civil.DaysFromCivil(Civil.Date(c.year, 12, 31))
  {
    var c := Civil.CivilFromDays(DayNumber(t));
    LastMillisecond(Civil.DaysFromCivil(Civil.Date(c.year, 12, 31)));
  }

  /** The end of the year around `t` falls on its December 31st. */
  lemma EndOfYearIsLast(t: int)
    ensures var c := Civil.CivilFromDays(DayNumber(t));
      Civil.CivilFromDays(DayNumber(EndOfYear(t))) == Civil.Date(c.year, 12, 31)
  {
    var c := Civil.CivilFromDays(DayNumber(t));
    EndOfYearDay(t);
    Civil.CivilRoundTrip(Civil.Date(c.year, 12, 31));
  }
}
