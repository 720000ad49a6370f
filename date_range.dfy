/**
 * The time window a calendar view shows around a date (getDateRange.ts):
 * a total function of the date, the custom range, the view and the first
 * day of the week, built from the UTC start/end of day, week, month and year.
 */
module DateRange {
  import Civil
  import opened DateFnsUtc

  /** The calendar views (VIEWS in the application's constants). */
  datatype View = DayView | WeekView | MonthView | YearView | AgendaView

  /** The window shown by `view` around `date`; both ends are inclusive. */
  function GetDateRange(date: int, range: int, view: View, weekStartsOn: int): (r: (int, int))
    requires ValidWeekStart(weekStartsOn)
    ensures r.0 % MILLISECONDS_IN_DAY == 0
  {
    match view
    case DayView => (StartOfDay(date), EndOfDay(date))
    case WeekView =>
      if range > 0 then (StartOfDay(date), EndOfDay(AddDays(date, range)))
      else (StartOfWeek(date, weekStartsOn), EndOfWeek(date, weekStartsOn))
    case MonthView =>
      if range > 0 then (StartOfWeek(date, weekStartsOn), EndOfWeek(AddWeeks(date, range), weekStartsOn))
      else (StartOfWeek(StartOfMonth(date), weekStartsOn), EndOfWeek(EndOfMonth(date), weekStartsOn))
    case YearView => (StartOfWeek(StartOfYear(date), weekStartsOn), EndOfWeek(EndOfYear(date), weekStartsOn))
    case AgendaView => (StartOfDay(date), AddDays(StartOfDay(date), 30))
  }

  /** Every view's window contains the date it was computed for. */
  lemma WindowContainsDate(date: int, range: int, view: View, weekStartsOn: int)
    requires ValidWeekStart(weekStartsOn)
    ensures GetDateRange(date, range, view, weekStartsOn).0 <= date <= GetDateRange(date, range, view, weekStartsOn).1
  {
    match view
    case DayView =>
    case WeekView =>
      if range > 0 {
        assert date <= AddDays(date, range);
      } else {
        WeekEncloses(date, weekStartsOn);
      }
    case MonthView =>
      WeekEncloses(date, weekStartsOn);
      if range > 0 {
        WeekEncloses(AddWeeks(date, range), weekStartsOn);
        assert StartOfDay(date) <= StartOfDay(AddWeeks(date, range));
      } else {
        MonthEncloses(date);
        WeekEncloses(StartOfMonth(date), weekStartsOn);
        WeekEncloses(EndOfMonth(date), weekStartsOn);
      }
    case YearView =>
      YearEncloses(date);
      WeekEncloses(StartOfYear(date), weekStartsOn);
      WeekEncloses(EndOfYear(date), weekStartsOn);
    case AgendaView =>
  }

  /** `range` is consulted only by the week and month views, and only when it is positive. */
  lemma RangeOnlyWhenPositive(date: int, range: int, view: View, weekStartsOn: int)
    requires ValidWeekStart(weekStartsOn)
    requires range <= 0 || view !in {WeekView, MonthView}
    ensures GetDateRange(date, range, view, weekStartsOn) == GetDateRange(date, 0, view, weekStartsOn)
  {
  }

  /** The day view is the date's day, from midnight to its last millisecond. */
  lemma DayWindow(date: int, weekStartsOn: int)
    requires ValidWeekStart(weekStartsOn)
    ensures var (lo, hi) := GetDateRange(date, 0, DayView, weekStartsOn);
      lo % MILLISECONDS_IN_DAY == 0 && lo <= date < lo + MILLISECONDS_IN_DAY && hi + 1 == lo + MILLISECONDS_IN_DAY
  {
  }

  /** A week view with a positive range shows `range + 1` whole days from the date's midnight. */
  lemma CustomWeekWindow(date: int, range: int, weekStartsOn: int)
    requires ValidWeekStart(weekStartsOn)
    requires range > 0
    ensures var (lo, hi) := GetDateRange(date, range, WeekView, weekStartsOn);
      lo == StartOfDay(date) && hi + 1 == lo + (range + 1) * MILLISECONDS_IN_DAY
  {
    assert StartOfDay(AddDays(date, range)) == StartOfDay(date) + range * MILLISECONDS_IN_DAY;
  }

  /** A plain week view is exactly the seven days of the week around the date, starting on `weekStartsOn`. */
  lemma WeekWindow(date: int, range: int, weekStartsOn: int)
    requires ValidWeekStart(weekStartsOn)
    requires range <= 0
    ensures var (lo, hi) := GetDateRange(date, range, WeekView, weekStartsOn);
      WeekAligned(lo, weekStartsOn) && lo <= date <= hi && hi + 1 == lo + MILLISECONDS_IN_WEEK
  {
    WeekEncloses(date, weekStartsOn);
  }

  /**
   * A window padded out to whole weeks around [first, last]: it starts on a
   * `weekStartsOn` midnight less than a week before `first`, and ends the
   * millisecond before a `weekStartsOn` midnight less than a week after `last`.
   */
  predicate PaddedToWeeks(lo: int, hi: int, first: int, last: int, weekStartsOn: int) {
    && WeekAligned(lo, weekStartsOn)
    && WeekAligned(hi + 1, weekStartsOn)
    && lo <= first < lo + MILLISECONDS_IN_WEEK
    && last <= hi < last + MILLISECONDS_IN_WEEK
    && (hi + 1 - lo) % MILLISECONDS_IN_WEEK == 0
  }

  lemma WeekPadding(first: int, last: int, weekStartsOn: int)
    requires ValidWeekStart(weekStartsOn)
    requires first % MILLISECONDS_IN_DAY == 0 && first <= last
    requires (last + 1) % MILLISECONDS_IN_DAY == 0
    ensures PaddedToWeeks(StartOfWeek(first, weekStartsOn), EndOfWeek(last, weekStartsOn), first, last, weekStartsOn)
  {
    WeekEncloses(first, weekStartsOn);
    WeekEncloses(last, weekStartsOn);
    var lo := StartOfWeek(first, weekStartsOn);
    var hi := EndOfWeek(last, weekStartsOn);
    var k := StartOfWeek(last, weekStartsOn);
    assert WeekAligned(lo, weekStartsOn) && WeekAligned(k, weekStartsOn);
    WeekAlignedApart(lo, k, weekStartsOn);
    assert hi + 1 - lo == (k - lo) + MILLISECONDS_IN_WEEK;
    assert hi + 1 == k + MILLISECONDS_IN_WEEK;
    assert Civil.Weekday(DayNumber(hi + 1)) == Civil.Weekday(DayNumber(k));
  }

  /** Two midnights on the same weekday lie a whole number of weeks apart. */
  lemma WeekAlignedApart(a: int, b: int, weekStartsOn: int)
    requires WeekAligned(a, weekStartsOn) && WeekAligned(b, weekStartsOn)
    ensures (b - a) % MILLISECONDS_IN_WEEK == 0
  {
    var da := DayNumber(a);
    var db := DayNumber(b);
    assert a == da * MILLISECONDS_IN_DAY && b == db * MILLISECONDS_IN_DAY;
    assert (db - da) % 7 == 0;
    var q := (db - da) / 7;
    assert b - a == q * MILLISECONDS_IN_WEEK;
  }

  /** A plain month view is the date's month padded out to whole weeks. */
  lemma MonthWindow(date: int, range: int, weekStartsOn: int)
    requires ValidWeekStart(weekStartsOn)
    requires range <= 0
    ensures var (lo, hi) := GetDateRange(date, range, MonthView, weekStartsOn);
      PaddedToWeeks(lo, hi, StartOfMonth(date), EndOfMonth(date), weekStartsOn)
  {
    MonthSpan(date);
    WeekPadding(StartOfMonth(date), EndOfMonth(date), weekStartsOn);
  }

  /** The year view is the date's year padded out to whole weeks. */
  lemma YearWindow(date: int, weekStartsOn: int)
    requires ValidWeekStart(weekStartsOn)
    ensures var (lo, hi) := GetDateRange(date, 0, YearView, weekStartsOn);
      PaddedToWeeks(lo, hi, StartOfYear(date), EndOfYear(date), weekStartsOn)
  {
    YearSpan(date);
    WeekPadding(StartOfYear(date), EndOfYear(date), weekStartsOn);
  }

  /** A month view with a positive range runs from the date's week through the week `range` weeks later. */
  lemma CustomMonthWindow(date: int, range: int, weekStartsOn: int)
    requires ValidWeekStart(weekStartsOn)
    requires range > 0
    ensures var (lo, hi) := GetDateRange(date, range, MonthView, weekStartsOn);
      && WeekAligned(lo, weekStartsOn) && WeekAligned(hi + 1, weekStartsOn)
      && hi + 1 - lo == (range + 1) * MILLISECONDS_IN_WEEK
  {
    var later := AddWeeks(date, range);
    WeekEncloses(date, weekStartsOn);
    WeekEncloses(later, weekStartsOn);
    var lo := StartOfWeek(date, weekStartsOn);
    var k := StartOfWeek(later, weekStartsOn);
    DayShift(date, 7 * range);
    Civil.WeekdayPeriodic(DayNumber(date), range);
    assert k == lo + range * MILLISECONDS_IN_WEEK;
    DayShift(k, 7);
    Civil.WeekdayPeriodic(DayNumber(k), 1);
  }

  /** A month view with a positive range covers the date's midnight through the end of the day `range` weeks later. */
  lemma CustomMonthCovers(date: int, range: int, weekStartsOn: int)
    requires ValidWeekStart(weekStartsOn)
    requires range > 0
    ensures var (lo, hi) := GetDateRange(date, range, MonthView, weekStartsOn);
      lo <= StartOfDay(date) && StartOfDay(date) + (7 * range + 1) * MILLISECONDS_IN_DAY <= hi + 1
  {
    WeekEncloses(date, weekStartsOn);
    WeekEncloses(AddWeeks(date, range), weekStartsOn);
    DayShift(date, 7 * range);
  }

  /** The agenda view is thirty days from the date's midnight, with no end-of-day adjustment. */
  lemma AgendaWindow(date: int, weekStartsOn: int)
    requires ValidWeekStart(weekStartsOn)
    ensures var (lo, hi) := GetDateRange(date, 0, AgendaView, weekStartsOn);
      lo % MILLISECONDS_IN_DAY == 0 && lo <= date < lo + MILLISECONDS_IN_DAY && hi - lo == 30 * MILLISECONDS_IN_DAY
  {
  }
}
