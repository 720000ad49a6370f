/**
 * The calendar container's date bookkeeping (calendar/CalendarContainerView.js):
 * converting between the browser-local dates of the mini calendar and the
 * UTC-midnight dates of the view, and the `{ view, range, date }` updates
 * it hands to `setCustom`.
 */
module CalendarView {
  import opened Wrappers
  import Civil
  import opened DateFnsUtc
  import opened Model
  import opened Timezone
  import opened DateRange

  /** A key of the object handed to `setCustom`: absent, or present with a value. */
  datatype Update<T> = Keep | Assign(value: T)

  /** The object handed to `setCustom`; a range of `None` is `range: undefined`. */
  datatype Custom = Custom(view: Update<View>, range: Update<Option<int>>, date: Update<int>)

  /**
   * `localToUtcDate`: the UTC midnight carrying the year, month and day the
   * browser's zone `localTz` shows for `date`
   * (`Date.UTC(date.getFullYear(), date.getMonth(), date.getDate())`).
   */
  function LocalToUtcDate(z: Zones, localTz: Tz, date: int): (r: int)
    ensures r % MILLISECONDS_IN_DAY == 0
    ensures Civil.CivilFromDays(DayNumber(r)) == Civil.CivilFromDays(DayNumber(z.toZone(date, localTz)))
  {
    var c := Civil.CivilFromDays(DayNumber(z.toZone(date, localTz)));
    Midnight(Civil.DaysFromCivil(c))
  }

  /**
   * The local midnight of the UTC year, month and day of `utcDate`
   * (`new Date(utcDate.getUTCFullYear(), utcDate.getUTCMonth(), utcDate.getUTCDate())`);
   * `localDate` and `localNowDate` are this for `utcDate` and `utcDefaultDate`.
   */
  function UtcToLocalDate(z: Zones, localTz: Tz, utcDate: int): int {
    var c := Civil.CivilFromDays(DayNumber(utcDate));
    z.fromZone(Midnight(Civil.DaysFromCivil(c)), localTz)
  }

  /** The local date shows, on the local wall clock, the UTC calendar day of `utcDate` at midnight. */
  lemma UtcToLocalDateShowsSameDay(z: Zones, localTz: Tz, utcDate: int)
    requires MutualInverse(z)
    ensures z.toZone(UtcToLocalDate(z, localTz, utcDate), localTz) == StartOfDay(utcDate)
  {
  }

  /** Round trip: a UTC midnight comes back unchanged from its local date, and any UTC date comes back as its day's midnight. */
  lemma LocalUtcRoundTrip(z: Zones, localTz: Tz, utcDate: int)
    requires MutualInverse(z)
    ensures LocalToUtcDate(z, localTz, UtcToLocalDate(z, localTz, utcDate)) == StartOfDay(utcDate)
    ensures utcDate % MILLISECONDS_IN_DAY == 0 ==> LocalToUtcDate(z, localTz, UtcToLocalDate(z, localTz, utcDate)) == utcDate
  {
    UtcToLocalDateShowsSameDay(z, localTz, utcDate);
  }

  /**
   * A range picked in the mini calendar, starting on local date `start`, whose
   * last day is `numberOfDays` calendar days after the first
   * (date-fns `differenceInCalendarDays(end, start)`), so a one-day pick has 0.
   */
  function HandleSelectDateRange(z: Zones, localTz: Tz, start: int, numberOfDays: int): (r: Custom)
    ensures r.date == Assign(LocalToUtcDate(z, localTz, start))
    ensures numberOfDays >= 7 ==>
      && r.view == Assign(MonthView) && r.range.Assign? && r.range.value.Some?
      && var weeks := r.range.value.value; weeks >= 1 && 7 * weeks <= numberOfDays < 7 * weeks + 7
    ensures numberOfDays < 7 ==> r.view == Assign(WeekView) && r.range == Assign(Some(numberOfDays))
  {
    var newDate := LocalToUtcDate(z, localTz, start);
    if numberOfDays >= 7 then
      Custom(Assign(MonthView), Assign(Some(numberOfDays / 7)), Assign(newDate))
    else
      Custom(Assign(WeekView), Assign(Some(numberOfDays)), Assign(newDate))
  }

  /** A day picked in the mini calendar changes only the date. */
  function HandleClickLocalDate(z: Zones, localTz: Tz, newDate: int): (r: Custom)
    ensures r.view == Keep && r.range == Keep
    ensures r.date.Assign? && r.date.value % MILLISECONDS_IN_DAY == 0
  {
    Custom(Keep, Keep, Assign(LocalToUtcDate(z, localTz, newDate)))
  }

  /** Today moves only the date, to the `utcDefaultDate` the callback captured. */
  function HandleClickToday(utcDefaultDate: int): (r: Custom)
    ensures r.view == Keep && r.range == Keep && r.date == Assign(utcDefaultDate)
  {
    Custom(Keep, Keep, Assign(utcDefaultDate))
  }

  /** A new view clears the custom range. */
  function HandleChangeView(newView: View): (r: Custom)
    ensures r.view == Assign(newView) && r.range == Assign(None) && r.date == Keep
  {
    Custom(Assign(newView), Assign(None), Keep)
  }

  /** Next moves only the date, to `getDateDiff(utcDate, range, view, 1)`; that helper is a parameter here. */
  function HandleClickNext(getDateDiff: (int, Option<int>, View, int) -> int, utcDate: int, range: Option<int>, view: View): (r: Custom)
    ensures r.view == Keep && r.range == Keep && r.date == Assign(getDateDiff(utcDate, range, view, 1))
  {
    Custom(Keep, Keep, Assign(getDateDiff(utcDate, range, view, 1)))
  }

  /** Previous moves only the date, to `getDateDiff(utcDate, range, view, -1)`. */
  function HandleClickPrev(getDateDiff: (int, Option<int>, View, int) -> int, utcDate: int, range: Option<int>, view: View): (r: Custom)
    ensures r.view == Keep && r.range == Keep && r.date == Assign(getDateDiff(utcDate, range, view, -1))
  {
    Custom(Keep, Keep, Assign(getDateDiff(utcDate, range, view, -1)))
  }

  /** The mini calendar highlights the view's local range only when `range >= 0` (an undefined range compares false). */
  function MiniCalendarDateRange(range: Option<int>, localDateRange: (int, int)): (r: Option<(int, int)>)
    ensures r.Some? <==> range.Some? && range.value >= 0
    ensures r.Some? ==> r.value == localDateRange
  {
    if range.Some? && range.value >= 0 then Some(localDateRange) else None
  }

  /** The view state that `setCustom` keeps: a custom range of `None` is an undefined range. */
  datatype ViewState = ViewState(view: View, range: Option<int>, date: int)

  /** The value a key ends with: the update's when present, the state's otherwise. */
  function Merged<T>(u: Update<T>, current: T): T {
    match u
    case Keep => current
    case Assign(v) => v
  }

  /** `setCustom` spreads the update over the state: a key present in the update wins, even when it is undefined. */
  function SetCustom(s: ViewState, c: Custom): (r: ViewState)
    ensures c.view == Keep ==> r.view == s.view
    ensures c.range == Keep ==> r.range == s.range
    ensures c.date == Keep ==> r.date == s.date
    ensures c.view.Assign? ==> r.view == c.view.value
    ensures c.range.Assign? ==> r.range == c.range.value
    ensures c.date.Assign? ==> r.date == c.date.value
  {
    ViewState(Merged(c.view, s.view), Merged(c.range, s.range), Merged(c.date, s.date))
  }

  /**
   * The window the parent container shows for a view state, taken to be
   * `getDateRange(date, range, view, weekStartsOn)`; an undefined range fails
   * `range > 0` just as zero does.
   */
  function Window(s: ViewState, weekStartsOn: int): (int, int)
    requires ValidWeekStart(weekStartsOn)
  {
    GetDateRange(s.date, if s.range.Some? then s.range.value else 0, s.view, weekStartsOn)
  }

  /** After a change of view the window is the new view's plain window around the same date. */
  lemma ChangeViewShowsPlainWindow(s: ViewState, newView: View, weekStartsOn: int)
    requires ValidWeekStart(weekStartsOn)
    ensures var s' := SetCustom(s, HandleChangeView(newView));
      s'.date == s.date && s'.view == newView && MiniCalendarDateRange(s'.range, (0, 0)).None?
      && Window(s', weekStartsOn) == GetDateRange(s.date, 0, newView, weekStartsOn)
  {
  }

  /** After Today the view and range are kept and the window contains the captured `utcDefaultDate`. */
  lemma TodayIsInWindow(s: ViewState, utcDefaultDate: int, weekStartsOn: int)
    requires ValidWeekStart(weekStartsOn)
    ensures var s' := SetCustom(s, HandleClickToday(utcDefaultDate));
      && s'.view == s.view && s'.range == s.range
      && Window(s', weekStartsOn).0 <= utcDefaultDate <= Window(s', weekStartsOn).1
  {
    var s' := SetCustom(s, HandleClickToday(utcDefaultDate));
    WindowContainsDate(utcDefaultDate, if s'.range.Some? then s'.range.value else 0, s'.view, weekStartsOn);
  }

  /**
   * Clicking a local day moves the view to the UTC midnight of that day, whose
   * local date then shows the clicked day at midnight; view and range stay.
   */
  lemma ClickedDayIsShown(z: Zones, localTz: Tz, s: ViewState, clicked: int)
    requires MutualInverse(z)
    ensures var s' := SetCustom(s, HandleClickLocalDate(z, localTz, clicked));
      && s'.view == s.view && s'.range == s.range
      && z.toZone(UtcToLocalDate(z, localTz, s'.date), localTz) == StartOfDay(z.toZone(clicked, localTz))
  {
    var u := LocalToUtcDate(z, localTz, clicked);
    UtcToLocalDateShowsSameDay(z, localTz, u);
    var n := DayNumber(z.toZone(clicked, localTz));
    Civil.CivilRoundTrip(Civil.CivilFromDays(n));
  }

  /**
   * A selection whose last day is one to six days after its first becomes a
   * week view whose window is exactly the selected days, from the first day's
   * midnight to the end of the last day.
   */
  lemma ShortSelectionWindow(z: Zones, localTz: Tz, start: int, numberOfDays: int, weekStartsOn: int)
    requires ValidWeekStart(weekStartsOn)
    requires 0 < numberOfDays < 7
    ensures var c := HandleSelectDateRange(z, localTz, start, numberOfDays);
      var (lo, hi) := GetDateRange(c.date.value, c.range.value.value, c.view.value, weekStartsOn);
      lo == c.date.value && hi + 1 == c.date.value + (numberOfDays + 1) * MILLISECONDS_IN_DAY
  {
    var c := HandleSelectDateRange(z, localTz, start, numberOfDays);
    CustomWeekWindow(c.date.value, numberOfDays, weekStartsOn);
  }

  /**
   * A one-day selection (a difference of 0) gives the week view with range 0,
   * which fails `range > 0`: the window is the whole week around the day, not
   * the day alone.
   */
  lemma OneDaySelectionWindow(z: Zones, localTz: Tz, start: int, numberOfDays: int, weekStartsOn: int)
    requires ValidWeekStart(weekStartsOn)
    requires numberOfDays <= 0
    ensures var c := HandleSelectDateRange(z, localTz, start, numberOfDays);
      var (lo, hi) := GetDateRange(c.date.value, c.range.value.value, c.view.value, weekStartsOn);
      && c.view == Assign(WeekView)
      && WeekAligned(lo, weekStartsOn) && lo <= c.date.value <= hi && hi + 1 == lo + MILLISECONDS_IN_WEEK
  {
    var c := HandleSelectDateRange(z, localTz, start, numberOfDays);
    WeekWindow(c.date.value, numberOfDays, weekStartsOn);
  }

  /**
   * A selection whose last day is seven or more days after its first becomes
   * a month view that starts on or before the first day and covers at least
   * the first `7 * (numberOfDays / 7) + 1` days.
   */
  lemma LongSelectionWindow(z: Zones, localTz: Tz, start: int, numberOfDays: int, weekStartsOn: int)
    requires ValidWeekStart(weekStartsOn)
    requires numberOfDays >= 7
    ensures var c := HandleSelectDateRange(z, localTz, start, numberOfDays);
      var (lo, hi) := GetDateRange(c.date.value, c.range.value.value, c.view.value, weekStartsOn);
      lo <= c.date.value && c.date.value + (7 * (numberOfDays / 7) + 1) * MILLISECONDS_IN_DAY <= hi + 1
  {
    var c := HandleSelectDateRange(z, localTz, start, numberOfDays);
    CustomMonthCovers(c.date.value, numberOfDays / 7, weekStartsOn);
  }
}
