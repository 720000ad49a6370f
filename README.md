# Proton Calendar: date windows, the event editor's date/time row and form, and the calendar container

This project models four parts of the Proton Calendar web application in Dafny and proves properties about them.

- **getDateRange** (`containers/calendar/getDateRange.ts`): the time window a calendar view (day, week, month, year, agenda) shows around a date. It depends on the custom range and on the first day of the week. The UTC date-fns helpers it calls are modelled too: start and end of day, week, month and year, and adding days and weeks. They are built on a proleptic Gregorian calendar over day numbers (module `Civil`).
- **DateTimeRow** (`components/eventModal/rows/DateTimeRow.tsx`): the start/end logic of the event editor. It covers:
  - the duration-mode test;
  - the minimum end time and end date;
  - moving the end along with the start;
  - the guard that never lets the end resolve before the start.
- **EventForm** (`components/eventModal/EventForm.tsx`): the update each field of the event form hands to `setModel`, and which optional rows the form shows.
- **CalendarContainerView** (`containers/calendar/CalendarContainerView.js`): the conversions between browser-local dates and UTC-midnight dates, and the `{ view, range, date }` updates that the mini calendar and the toolbar hand to `setCustom`.

Time is kept as integer milliseconds since 1970-01-01T00:00Z, as `Date.prototype.valueOf` gives it. Wall-clock readings in a time zone are kept as the timestamp that would show those digits in UTC, which is how the source's `toUTCDate`/`fromUTCDate` pair works.

The time-zone conversions (`Timezone.Zones`) and the helpers the row calls (`getTimeInUtc`, `getDateTimeState`, `getFrequencyModelChange`) are not part of this model. They are passed in as function values in `DateTimeRow.Env`. The properties that need them to behave state that as a requirement:
- `Timezone.MutualInverse`: the two zone conversions undo each other.
- `DateTimeRow.Consistent`: splitting an instant's wall clock into date and time and resolving the pair gives the instant back.

`Timezone.UtcZones` and `DateTimeRow.UtcEnv` show that these requirements can be met.

Each handler is a function from the current model and the new input to the model passed to `setModel`. `None` means the handler returns without calling `setModel`.

## Model

| member | source | states |
|---|---|---|
| DateRange.GetDateRange | src/app/containers/calendar/getDateRange.ts:16-36 | Every view's window starts at a midnight; the per-view shapes are stated by WindowContainsDate and the window lemmas below |
| DateRange.WindowContainsDate | src/app/containers/calendar/getDateRange.ts:16-36 | Every view's window contains the date it is computed for, whatever the range and first weekday |
| DateRange.RangeOnlyWhenPositive | src/app/containers/calendar/getDateRange.ts:22-30 | The range changes the window only for the week and month views, and only when it is positive |
| DateRange.DayWindow | src/app/containers/calendar/getDateRange.ts:19-20 | The day view is the date's own UTC day: it starts at a midnight less than a day before the date and ends the millisecond before the next midnight |
| DateRange.CustomWeekWindow | src/app/containers/calendar/getDateRange.ts:22-23 | A week view with a positive range starts at the date's midnight and spans exactly range + 1 whole days |
| DateRange.WeekWindow | src/app/containers/calendar/getDateRange.ts:25 | A plain week view is seven days long, starts at a midnight on weekStartsOn, and contains the date |
| DateRange.MonthWindow | src/app/containers/calendar/getDateRange.ts:30 | A plain month view starts on a weekStartsOn midnight less than a week before the 1st; ends less than a week after the month's last millisecond; has whole-week length |
| DateRange.CustomMonthWindow | src/app/containers/calendar/getDateRange.ts:27-28 | A month view with a positive range starts and ends on week boundaries and is exactly range + 1 weeks long |
| DateRange.CustomMonthCovers | src/app/containers/calendar/getDateRange.ts:27-28 | A month view with a positive range covers the date's midnight through the end of the day range weeks later |
| DateRange.YearWindow | src/app/containers/calendar/getDateRange.ts:31-32 | The year view is the date's year padded out to whole weeks on both sides |
| DateRange.AgendaWindow | src/app/containers/calendar/getDateRange.ts:33-34 | The agenda view starts at the date's own midnight (a midnight less than a day before the date) and ends exactly 30 days later, with no end-of-day adjustment |
| DateRange.WeekPadding | src/app/containers/calendar/getDateRange.ts:30-32 | Start-of-week of a first day and end-of-week of a last day pad [first, last] to whole weeks; each side gets less than a week |
| DateFnsUtc.StartOfDay | src/app/containers/calendar/getDateRange.ts:20 | startOfDay is the midnight at or before the date, less than a day before it |
| DateFnsUtc.EndOfDay | src/app/containers/calendar/getDateRange.ts:20 | endOfDay is at or after the date and is the last millisecond before the next midnight |
| DateFnsUtc.StartOfWeek | src/app/containers/calendar/getDateRange.ts:25 | Its properties are stated by WeekEncloses: the last weekStartsOn midnight at or before the date's day |
| DateFnsUtc.EndOfWeek | src/app/containers/calendar/getDateRange.ts:25 | Its properties are stated by WeekEncloses: one millisecond before seven days after StartOfWeek |
| DateFnsUtc.StartOfMonth | src/app/containers/calendar/getDateRange.ts:30 | Its properties are stated by MonthEncloses, MonthSpan and StartOfMonthIsFirst |
| DateFnsUtc.EndOfMonth | src/app/containers/calendar/getDateRange.ts:30 | Its properties are stated by MonthEncloses, MonthSpan, EndOfMonthDay and EndOfMonthIsLast |
| DateFnsUtc.StartOfYear | src/app/containers/calendar/getDateRange.ts:32 | Its properties are stated by YearEncloses, YearSpan and StartOfYearIsFirst |
| DateFnsUtc.EndOfYear | src/app/containers/calendar/getDateRange.ts:32 | Its properties are stated by YearEncloses, YearSpan, EndOfYearDay and EndOfYearIsLast |
| DateFnsUtc.AddDays | src/app/containers/calendar/getDateRange.ts:23 | addDays moves the day number by exactly amount days and keeps the time of day |
| DateFnsUtc.AddWeeks | src/app/containers/calendar/getDateRange.ts:28 | addWeeks moves the day number by exactly 7 * amount days and keeps the time of day and the weekday |
| DateFnsUtc.WeekEncloses | src/app/containers/calendar/getDateRange.ts:25 | startOfWeek is the last weekStartsOn midnight at or before the date's day; endOfWeek is one millisecond before seven days later |
| DateFnsUtc.MonthEncloses | src/app/containers/calendar/getDateRange.ts:30 | startOfMonth <= date <= endOfMonth |
| DateFnsUtc.StartOfMonthIsFirst | src/app/containers/calendar/getDateRange.ts:30 | startOfMonth is a midnight on the 1st of the date's month and year |
| DateFnsUtc.EndOfMonthDay | src/app/containers/calendar/getDateRange.ts:30 | endOfMonth lies within the day whose number is that of the last day of the date's month |
| DateFnsUtc.EndOfMonthIsLast | src/app/containers/calendar/getDateRange.ts:30 | endOfMonth is the last millisecond of the month's last day (28 to 31 by month and leap year) |
| DateFnsUtc.YearEncloses | src/app/containers/calendar/getDateRange.ts:32 | startOfYear <= date <= endOfYear |
| DateFnsUtc.StartOfYearIsFirst | src/app/containers/calendar/getDateRange.ts:32 | startOfYear is a midnight on January 1st of the date's year |
| DateFnsUtc.EndOfYearDay | src/app/containers/calendar/getDateRange.ts:32 | endOfYear lies within the day whose number is that of December 31st of the date's year |
| DateFnsUtc.EndOfYearIsLast | src/app/containers/calendar/getDateRange.ts:32 | endOfYear is the last millisecond of December 31st of the date's year |
| Civil.CivilFromDays | src/app/containers/calendar/CalendarContainerView.js:68 | The UTC year, month and day of a day number form a valid date whose day number is the input |
| Civil.CivilRoundTrip | src/app/containers/calendar/CalendarContainerView.js:36 | Date.UTC(year, month, day) followed by reading the UTC date back gives the same valid date |
| Civil.DaysInMonth | src/app/containers/calendar/getDateRange.ts:30 | A month has 28 to 31 days; it has 29 exactly for February of a leap year |
| Civil.Weekday | src/app/containers/calendar/getDateRange.ts:25 | The weekday used by startOfWeek/endOfWeek is in 0..6 |
| Civil.WeekdayAnchor | src/app/containers/calendar/getDateRange.ts:25 | 2000-01-01 has weekday 6 (Saturday), which checks the Thursday epoch offset of Weekday independently |
| Civil.WeekdayPeriodic | src/app/containers/calendar/getDateRange.ts:28 | Weekdays repeat every seven days, so adding weeks keeps the weekday |
| Civil.YearStartMonotone | src/app/containers/calendar/getDateRange.ts:32 | A later year starts on a later day |
| Civil.DaysBeforeMonthMonotone | src/app/containers/calendar/getDateRange.ts:30 | A later month of the same year starts on a later day |
| Civil.MonthsFillYear | src/app/containers/calendar/getDateRange.ts:32 | The twelve months fill the year exactly, and December has 31 days |
| DateTimeRow.DurationThreshold | src/app/components/eventModal/rows/DateTimeRow.tsx:46 | Duration mode is strict: exactly 24 hours is not duration mode; one millisecond less is |
| DateTimeRow.GetStartChange | src/app/components/eventModal/rows/DateTimeRow.tsx:59-71 | The new start is the one given |
| DateTimeRow.StartChangePreservesDuration | src/app/components/eventModal/rows/DateTimeRow.tsx:59-71 | Moving the start moves the end by the same number of milliseconds; the duration and the end's zone are kept |
| DateTimeRow.HandleChangeStartDate | src/app/components/eventModal/rows/DateTimeRow.tsx:87-97 | An invalid or missing date is ignored; otherwise the start gets the new date, the recurrence comes from getFrequencyModelChange, and only start, end and recurrence change |
| DateTimeRow.HandleChangeStartTime | src/app/components/eventModal/rows/DateTimeRow.tsx:99-107 | The start gets the new time; only start and end change; the recurrence is left alone |
| DateTimeRow.StartEditsPreserveDuration | src/app/components/eventModal/rows/DateTimeRow.tsx:87-107 | Both start handlers keep the event's resolved duration and the end's zone |
| DateTimeRow.HandleEndUpdate | src/app/components/eventModal/rows/DateTimeRow.tsx:109-118 | A candidate end is accepted exactly when it does not resolve before the start; if accepted, only end changes and the result is ordered |
| DateTimeRow.HandleChangeEndDate | src/app/components/eventModal/rows/DateTimeRow.tsx:120-128 | An invalid or missing date is ignored; otherwise the date is accepted exactly when the end still resolves at or after the start, and only end changes |
| DateTimeRow.HandleChangeEndTime | src/app/components/eventModal/rows/DateTimeRow.tsx:130-132 | The end computed from the new time is accepted exactly when it does not precede the start; only end changes |
| DateTimeRow.EditsPreserveOrder | src/app/components/eventModal/rows/DateTimeRow.tsx:87-132 | No input of the row ever hands setModel a model whose end precedes its start, starting from an ordered model |
| DateTimeRow.EndTimeChangeInstant | src/app/components/eventModal/rows/DateTimeRow.tsx:73-85 | The new end resolves to the end-time base, converted to an instant in the end's zone, plus the picked time's offset from the minimum end time |
| DateTimeRow.DurationEndTimeFromStart | src/app/components/eventModal/rows/DateTimeRow.tsx:73-85 | In duration mode the new end is the start instant plus the picked time's offset from the minimum end time |
| DateTimeRow.DurationEndTimeAcceptedIffAboveMin | src/app/components/eventModal/rows/DateTimeRow.tsx:47-48 | In duration mode an end time is accepted exactly when it is at or above the minimum end time |
| DateTimeRow.MinEndTimeMeetsStart | src/app/components/eventModal/rows/DateTimeRow.tsx:47-48 | In duration mode picking the minimum end time is accepted and gives an end equal to the start |
| DateTimeRow.MultiDayMinEndTime | src/app/components/eventModal/rows/DateTimeRow.tsx:48 | Outside duration mode the minimum end time is the time of DEFAULT_MIN_TIME and end times are measured from the end day's midnight |
| DateTimeRow.IsDuration | src/app/components/eventModal/rows/DateTimeRow.tsx:46 | Its threshold is stated by DurationThreshold: strictly less than 24 hours |
| DateTimeRow.MinEndTimeInTimezone | src/app/components/eventModal/rows/DateTimeRow.tsx:47 | The start instant on the end zone's wall clock; DurationEndTimeFromStart and MinEndTimeMeetsStart state what it gives |
| DateTimeRow.MinEndTime | src/app/components/eventModal/rows/DateTimeRow.tsx:48 | Stated by DurationEndTimeAcceptedIffAboveMin, MinEndTimeMeetsStart and MultiDayMinEndTime |
| DateTimeRow.AddLocalDays | src/app/components/eventModal/rows/DateTimeRow.tsx:54 | Stated by AddLocalDaysIsNextDay: one local calendar day later |
| DateTimeRow.GetMinEndDate | src/app/components/eventModal/rows/DateTimeRow.tsx:50-55 | Stated by MinEndDateChoice and MinEndDateIsFirstAccepted |
| DateTimeRow.MinEndDate | src/app/components/eventModal/rows/DateTimeRow.tsx:57 | The start date for an all-day event; for a timed event the start's date in the end's zone or the next local day |
| DateTimeRow.EndTimeBase | src/app/components/eventModal/rows/DateTimeRow.tsx:76-78 | Stated by DurationEndTimeFromStart (the start, in duration mode) and MultiDayEndTimeFromMidnight (the end day's midnight otherwise) |
| DateTimeRow.GetEndTimeChange | src/app/components/eventModal/rows/DateTimeRow.tsx:73-85 | Stated by EndTimeChangeInstant, DurationEndTimeFromStart and MultiDayEndTimeFromMidnight |
| DateTimeRow.MultiDayEndTimeFromMidnight | src/app/components/eventModal/rows/DateTimeRow.tsx:73-85 | Outside duration mode the new end is the end day's midnight in the end's zone, as an instant, plus the picked time's offset from the DEFAULT_MIN_TIME time |
| DateTimeRow.MinEndDateChoice | src/app/components/eventModal/rows/DateTimeRow.tsx:50-57 | All-day events: the minimum end date is the start date. Timed events: the start's date in the end's zone if that date with the current end time is accepted, otherwise the next local day |
| DateTimeRow.AddLocalDaysIsNextDay | src/app/components/eventModal/rows/DateTimeRow.tsx:54 | addDays(minDate, 1) is one local calendar day later, never the same date |
| DateTimeRow.MinEndDateIsFirstAccepted | src/app/components/eventModal/rows/DateTimeRow.tsx:50-57 | For a timed event, the minimum end date is the start's date in the end's zone exactly when that date would be accepted |
| Model.NoChangeIsIdentity | src/app/components/eventModal/EventForm.tsx:35 | Two models on which no field differs are equal, so the frame clauses below fix the whole model |
| Model.Overlay | src/app/components/eventModal/EventForm.tsx:35 | Spreading a partial model over a model changes only the fields the partial model carries, and each carried field, all fifteen of them, takes the partial model's value |
| EventForm.ToggleAllDay | src/app/components/eventModal/EventForm.tsx:35 | Toggling all-day changes only the fields getAllDayCheck returns, and isAllDay to its value when returned |
| EventForm.ChangeFrequency | src/app/components/eventModal/EventForm.tsx:50 | The recurrence takes the new value; nothing else changes |
| EventForm.ChangeTitle | src/app/components/eventModal/EventForm.tsx:86 | The title takes the new value; nothing else changes |
| EventForm.ChangeLocation | src/app/components/eventModal/EventForm.tsx:105 | The location takes the new value; nothing else changes |
| EventForm.ChangeDescription | src/app/components/eventModal/EventForm.tsx:110 | The description takes the new value; nothing else changes |
| EventForm.ChangeNotifications | src/app/components/eventModal/EventForm.tsx:115-145 | Editing notifications touches only the list shown (full-day when all-day, part-day otherwise) and its flag; the flag becomes true and the other flag keeps its value |
| EventForm.NotificationEditTargetsShownList | src/app/components/eventModal/EventForm.tsx:115-145 | After an edit the form shows the new list, and the hidden list is unchanged |
| EventForm.NotificationEditIgnoresHiddenList | src/app/components/eventModal/EventForm.tsx:115-145 | The result of a notification edit does not depend on the list that is not shown |
| EventForm.FormRows | src/app/components/eventModal/EventForm.tsx:41-77 | Timezone rows show exactly for timed events; the frequency row exactly when hasFrequencyRow; the calendar row exactly when there are calendars, disabled with an explanation exactly without hasCalendarRow |
| EventForm.FieldEditsKeepRows | src/app/components/eventModal/EventForm.tsx:41-110 | Editing the title, location, description, recurrence or notifications does not change which rows are shown |
| CalendarView.LocalToUtcDate | src/app/containers/calendar/CalendarContainerView.js:31-36 | The result is a UTC midnight whose UTC date equals the local calendar date of the input |
| CalendarView.UtcToLocalDate | src/app/containers/calendar/CalendarContainerView.js:67-73 | Stated by UtcToLocalDateShowsSameDay and LocalUtcRoundTrip |
| CalendarView.UtcToLocalDateShowsSameDay | src/app/containers/calendar/CalendarContainerView.js:67-73 | localDate and localNowDate show, on the local wall clock, the UTC day of the view date at midnight |
| CalendarView.LocalUtcRoundTrip | src/app/containers/calendar/CalendarContainerView.js:36 | localToUtcDate of the local date of a UTC date gives that date's midnight back, so a UTC midnight comes back unchanged |
| CalendarView.HandleSelectDateRange | src/app/containers/calendar/CalendarContainerView.js:80-96 | With N = differenceInCalendarDays(end, start), the number of days from the first to the last selected day: N >= 7 selects the month view with range floor(N / 7) >= 1; smaller N selects the week view with range N; the date is the start's UTC midnight |
| CalendarView.ShortSelectionWindow | src/app/containers/calendar/CalendarContainerView.js:89-94 | When the last selected day is 1 to 6 days after the first, the window is exactly the selected N + 1 days, from the first day's midnight to the end of the last |
| CalendarView.LongSelectionWindow | src/app/containers/calendar/CalendarContainerView.js:83-88 | When the last selected day is N >= 7 days after the first, the window starts on or before the first day and covers at least its first 7 * floor(N / 7) + 1 days |
| CalendarView.OneDaySelectionWindow | src/app/containers/calendar/CalendarContainerView.js:81-94 | A one-day selection (N = 0) gives the week view with range 0, which fails range > 0, so the window is the whole aligned week around the day, not the day alone |
| CalendarView.HandleClickLocalDate | src/app/containers/calendar/CalendarContainerView.js:98-100 | A click on a day changes only the date, to a UTC midnight |
| CalendarView.ClickedDayIsShown | src/app/containers/calendar/CalendarContainerView.js:98-100 | After a click, view and range are kept and the mini calendar's local date is the clicked local day at midnight |
| CalendarView.HandleClickToday | src/app/containers/calendar/CalendarContainerView.js:102-104 | Today changes only the date, to the utcDefaultDate the callback captured |
| CalendarView.Window | src/app/containers/calendar/getDateRange.ts:16-36 | The window shown for a view state is getDateRange of its date, range and view, an undefined range acting as 0; its properties are the DateRange window lemmas, used by TodayIsInWindow and ChangeViewShowsPlainWindow |
| CalendarView.TodayIsInWindow | src/app/containers/calendar/CalendarContainerView.js:102-104 | After Today, view and range are kept and the shown window contains the captured utcDefaultDate |
| CalendarView.HandleChangeView | src/app/containers/calendar/CalendarContainerView.js:106-108 | A new view sets the view and clears the range; the date stays |
| CalendarView.ChangeViewShowsPlainWindow | src/app/containers/calendar/CalendarContainerView.js:106-108 | After a change of view the window is the new view's plain window around the same date, and the mini calendar highlights nothing |
| CalendarView.HandleClickNext | src/app/containers/calendar/CalendarContainerView.js:110-112 | Next changes only the date, to getDateDiff(date, range, view, 1) |
| CalendarView.HandleClickPrev | src/app/containers/calendar/CalendarContainerView.js:114-116 | Previous changes only the date, to getDateDiff(date, range, view, -1) |
| CalendarView.MiniCalendarDateRange | src/app/containers/calendar/CalendarContainerView.js:153 | The mini calendar highlights the view's range exactly when range is defined and >= 0, and then it highlights exactly that range |
| CalendarView.SetCustom | src/app/containers/calendar/CalendarContainerView.js:84-115 | A key present in the update object replaces the state's value, even when it is undefined; an absent key keeps it |

## Left out

- Rendering is not modelled: JSX, React hooks, widgets, labels, translations, the sidebar and the header.
- `MINIMUM_DATE`/`MAXIMUM_DATE`: the date inputs' clamping to these bounds is a widget property and is not modelled.
- The IANA time-zone database and daylight-saving rules are not modelled. The zone conversions are the abstract `Timezone.Zones`, and the properties assume that the two conversions undo each other (`Timezone.MutualInverse`) and that splitting and resolving an instant gives it back (`DateTimeRow.Consistent`). A real zone meets neither assumption at a daylight-saving change, which voids two groups of lemmas there:
  - In a spring-forward gap, some wall-clock readings name no instant, so `fromZone` cannot be inverted on them. This voids the lemmas that take a local midnight or an `addDays` result back through `fromZone`: `DateTimeRow.AddLocalDaysIsNextDay`, `DateTimeRow.MinEndDateIsFirstAccepted`, `CalendarView.UtcToLocalDateShowsSameDay` and `CalendarView.ClickedDayIsShown`.
  - In a fall-back overlap, two instants show the same wall clock, so `toZone` is not injective and `timeInUtc(dateTimeState(toZone(i, tz), tz)) == i` fails for one of them. This voids the duration, ordering and end-time lemmas: `DateTimeRow.StartChangePreservesDuration`, `DateTimeRow.StartEditsPreserveDuration`, `DateTimeRow.EditsPreserveOrder`, `DateTimeRow.EndTimeChangeInstant`, `DateTimeRow.DurationEndTimeFromStart`, `DateTimeRow.DurationEndTimeAcceptedIffAboveMin`, `DateTimeRow.MinEndTimeMeetsStart` and `DateTimeRow.MultiDayEndTimeFromMidnight`. An event whose end lands in the repeated hour may then get an end before its start from the start handlers, depending on which instant the unmodelled `convertZonedDateTimeToUTC` picks.
- `getTimeInUtc`, `getDateTimeState`, `getFrequencyModelChange`, `getAllDayCheck` and `getDateDiff` are not part of this model. They are function parameters, and what the proofs need of them is stated as a requirement.
- `isValid(newDate)` and `!newDate` are modelled by the date input being an `Option`: `None` covers both undefined and an invalid `Date`.
- `differenceInCalendarDays(end, start)` is not modelled. The number of days is an integer input of `CalendarView.HandleSelectDateRange`.
- `localDateRange` (`toLocalDate(fromUTCDate(...))` of the view's UTC range) is not modelled. The mini calendar's highlight is stated over whatever local range is given.
- `CalendarView.Window` stands for the range the parent container computes from `{ view, range, date }` and passes back as `utcDateRange` (line 57). That computation is not part of this model. It is taken to be `getDateRange(date, range, view, weekStartsOn)`, with an undefined range acting as 0 through `range > 0`.
- `CalendarView.SetCustom` models `setCustom`, which belongs to the parent container and is not part of this model, as an object spread of the update over the current view state.
- `src/app/components/CalendarIcon.tsx` is not part of this model: it only renders an icon.
- `DateFnsUtc.StartOfWeek` and the functions that call it require `weekStartsOn` in 0..6. date-fns throws a RangeError for any other value, and that error path is not modelled.
- `Date.UTC(y, m, d)` and `new Date(y, m, d)` map years 0 to 99 to 1900 to 1999. `CalendarView.LocalToUtcDate` (line 36) and `CalendarView.UtcToLocalDate` (lines 68 and 72) use the proleptic Gregorian calendar for every year and do not model that mapping.
- Timestamps are unbounded integers. JavaScript's ±8.64e15 ms `Date` range and the resulting `Invalid Date` are not modelled.
- `EventForm.ToggleAllDay`: what `getAllDayCheck` sets when toggling all-day (notification defaults, end adjustment) is not stated, because that helper is not part of this model.
- Which notification list the form shows also comes with a default notification (`defaultFullDayNotification`/`defaultPartDayNotification`). That default is passed through to a widget and is not modelled.
- `CalendarView.LongSelectionWindow`: a month-view selection whose length is not a multiple of 7 days is only proved to cover its first 7 * floor(days / 7) + 1 days. The window ends at the end of the week holding the day `7 * floor(days / 7)` days after the start, so the last selected days can lie past it. The source rounds down there, and nothing in it says whether that is intended.
- `CalendarView.HandleClickToday`: `handleClickToday` is a `useCallback` with an empty dependency list, so it keeps the `utcDefaultDate` of the first render. The model takes that captured value as its input and does not model the freezing, or any other hook memoisation.
