/**
 * Conversions between absolute instants and wall-clock readings in a zone
 * (lib/date/timezone). A wall-clock reading is kept as the timestamp that
 * would show those digits in UTC, as the `toUTCDate`/`fromUTCDate` pair does.
 */
module Timezone {
  import opened Model

  /**
   * `toZone(i, tz)`: the wall clock of instant `i` in `tz`
   * (toUTCDate(convertUTCDateTimeToZone(fromUTCDate(i), tz))).
   * `fromZone(w, tz)`: the instant at which `tz` shows wall clock `w`
   * (toUTCDate(convertZonedDateTimeToUTC(fromUTCDate(w), tz))).
   */
  datatype Zones = Zones(toZone: (int, Tz) -> int, fromZone: (int, Tz) -> int)

  /** The two conversions undo each other, in every zone. */
  ghost predicate MutualInverse(z: Zones) {
    && (forall i: int, tz: Tz :: z.fromZone(z.toZone(i, tz), tz) == i)
    && (forall w: int, tz: Tz :: z.toZone(z.fromZone(w, tz), tz) == w)
  }

  /** Coordinated Universal Time in every zone: a witness that MutualInverse can hold. */
  function UtcZones(): (z: Zones)
    ensures MutualInverse(z)
  {
    Zones((i: int, tz: Tz) => i, (w: int, tz: Tz) => w)
  }
}

/**
 * The start/end consistency logic of the event editor's date and time row
 * (rows/DateTimeRow.tsx). Each change handler is a function from the current
 * model and the new input to the model handed to `setModel`; `None` stands
 * for returning without calling `setModel`.
 */
module DateTimeRow {
  import opened Wrappers
  import opened Model
  import opened Timezone
  import DateFnsUtc

  const MILLISECONDS_IN_DAY := DateFnsUtc.MILLISECONDS_IN_DAY

  /** `new Date(Date.UTC(2000, 0, 1, 0, 0))`: 00:00, the minimum end time outside duration mode. */
  const DEFAULT_MIN_TIME := 946684800000

  /**
   * The collaborators the row calls but that are not part of this model:
   * the zone conversions, the browser's local zone (for date-fns `addDays`),
   * `getTimeInUtc(dt, false)`, `getDateTimeState(date, tzid)` and
   * `getFrequencyModelChange(oldStart, newStart, frequencyModel)`.
   */
  datatype Env = Env(
    zones: Zones,
    localTz: Tz,
    timeInUtc: DateTimeModel -> int,
    dateTimeState: (int, Tz) -> DateTimeModel,
    frequencyModelChange: (DateTimeModel, DateTimeModel, Frequency) -> Frequency)

  /**
   * What the properties below assume of the collaborators: the zone
   * conversions are mutual inverses, splitting the wall clock of an instant
   * into date and time and resolving that pair gives the instant back, and
   * the split carries the zone it is given.
   */
  ghost predicate Consistent(env: Env) {
    && MutualInverse(env.zones)
    && (forall i: int, tz: Tz :: env.timeInUtc(env.dateTimeState(env.zones.toZone(i, tz), tz)) == i)
    && (forall w: int, tz: Tz :: env.dateTimeState(w, tz).tzid == tz)
  }

  /** An environment in which every zone is UTC, showing that Consistent can hold. */
  function UtcEnv(f: Frequency): (env: Env)
    ensures Consistent(env)
  {
    Env(
      UtcZones(),
      "",
      (dt: DateTimeModel) => dt.date + dt.time - DEFAULT_MIN_TIME,
      (w: int, tz: Tz) => DateTimeModel(DateFnsUtc.StartOfDay(w), w - DateFnsUtc.StartOfDay(w) + DEFAULT_MIN_TIME, tz),
      (a: DateTimeModel, b: DateTimeModel, g: Frequency) => g)
  }

  /** The instant an edge resolves to. */
  function Resolve(env: Env, edge: DateTimeModel): int {
    env.timeInUtc(edge)
  }

  function StartUtc(env: Env, m: EventModel): int {
    Resolve(env, m.start)
  }

  function EndUtc(env: Env, m: EventModel): int {
    Resolve(env, m.end)
  }

  /** The model invariant the row maintains: the end does not resolve before the start. */
  predicate Ordered(env: Env, m: EventModel) {
    StartUtc(env, m) <= EndUtc(env, m)
  }

  /** Duration mode: the event lasts less than 24 hours. */
  predicate IsDuration(env: Env, m: EventModel) {
    EndUtc(env, m) - StartUtc(env, m) < 24 * 60 * DateFnsUtc.MILLISECONDS_IN_MINUTE
  }

  /** The start instant read on a wall clock in the end's zone. */
  function MinEndTimeInTimezone(env: Env, m: EventModel): int {
    env.zones.toZone(StartUtc(env, m), m.end.tzid)
  }

  /** The minimum selectable end time. */
  function MinEndTime(env: Env, m: EventModel): int {
    env.dateTimeState(if IsDuration(env, m) then MinEndTimeInTimezone(env, m) else DEFAULT_MIN_TIME, "").time
  }

  /** The start's date as seen in the end's zone. */
  function StartDateInEndZone(env: Env, m: EventModel): int {
    env.dateTimeState(MinEndTimeInTimezone(env, m), "").date
  }

  /** date-fns `addDays`: `amount` calendar days later on the browser's local wall clock. */
  function AddLocalDays(env: Env, date: int, amount: int): int {
    env.zones.fromZone(env.zones.toZone(date, env.localTz) + amount * MILLISECONDS_IN_DAY, env.localTz)
  }

  function GetMinEndDate(env: Env, m: EventModel): int {
    var minDate := StartDateInEndZone(env, m);
    var minTimeUtcDate := Resolve(env, m.end.(date := minDate, time := m.end.time));
    if StartUtc(env, m) > minTimeUtcDate then AddLocalDays(env, minDate, 1) else minDate
  }

  /** The minimum selectable end date. */
  function MinEndDate(env: Env, m: EventModel): (r: int)
    ensures m.isAllDay ==> r == m.start.date
    ensures !m.isAllDay ==> r == StartDateInEndZone(env, m) || r == AddLocalDays(env, StartDateInEndZone(env, m), 1)
  {
    if m.isAllDay then m.start.date else GetMinEndDate(env, m)
  }

  /** New start and end edges after the start moves. */
  datatype StartChange = StartChange(start: DateTimeModel, end: DateTimeModel)

  /** Moving the start to `newStart` moves the end by the same number of milliseconds, read in the end's zone. */
  function GetStartChange(env: Env, m: EventModel, newStart: DateTimeModel): (r: StartChange)
    ensures r.start == newStart
  {
    var diffInMs := Resolve(env, newStart) - StartUtc(env, m);
    var newEndDate := EndUtc(env, m) + diffInMs;
    var endLocalDate := env.zones.toZone(newEndDate, m.end.tzid);
    StartChange(newStart, env.dateTimeState(endLocalDate, m.end.tzid))
  }

  /** The wall clock from which an end time is measured: the start (duration mode) or the end day's midnight. */
  function EndTimeBase(env: Env, m: EventModel): int {
    var endTimeInTimezone := env.zones.toZone(EndUtc(env, m), m.end.tzid);
    if IsDuration(env, m) then MinEndTimeInTimezone(env, m) else DateFnsUtc.StartOfDay(endTimeInTimezone)
  }

  /** The end edge for a newly picked end time: the base instant plus the picked time's offset from the minimum. */
  function GetEndTimeChange(env: Env, m: EventModel, newTime: int): DateTimeModel {
    var diffMs := newTime - MinEndTime(env, m);
    var endUtcDateBase := env.zones.fromZone(EndTimeBase(env, m), m.end.tzid);
    var newEndUtcDate := endUtcDateBase + diffMs;
    var endLocalDate := env.zones.toZone(newEndUtcDate, m.end.tzid);
    env.dateTimeState(endLocalDate, m.end.tzid)
  }

  /** A new start date; `None` is an undefined or invalid `Date`, which is ignored. */
  function HandleChangeStartDate(env: Env, m: EventModel, newDate: Option<int>): (r: Option<EventModel>)
    ensures r.Some? <==> newDate.Some?
    ensures r.Some? ==> r.value.start == m.start.(date := newDate.value)
    ensures r.Some? ==> r.value.frequencyModel == env.frequencyModelChange(m.start, r.value.start, m.frequencyModel)
    ensures r.Some? ==> Changed(m, r.value) <= {StartField, EndField, FrequencyModelField}
  {
    match newDate
    case None => None
    case Some(date) =>
      var newStart := m.start.(date := date);
      var change := GetStartChange(env, m, newStart);
      Some(m.(frequencyModel := env.frequencyModelChange(m.start, newStart, m.frequencyModel),
              start := change.start, end := change.end))
  }

  /** A new start time; the recurrence is left as it is. */
  function HandleChangeStartTime(env: Env, m: EventModel, newTime: int): (r: EventModel)
    ensures r.start == m.start.(time := newTime)
    ensures Changed(m, r) <= {StartField, EndField}
  {
    var change := GetStartChange(env, m, m.start.(time := newTime));
    m.(start := change.start, end := change.end)
  }

  /** The ordering guard: a candidate end strictly before the start is dropped; otherwise only `end` is replaced. */
  function HandleEndUpdate(env: Env, m: EventModel, newEnd: DateTimeModel): (r: Option<EventModel>)
    ensures r.Some? <==> StartUtc(env, m) <= Resolve(env, newEnd)
    ensures r.Some? ==> r.value.end == newEnd && Changed(m, r.value) <= {EndField}
    ensures r.Some? ==> Ordered(env, r.value)
  {
    if StartUtc(env, m) > Resolve(env, newEnd) then None
    else Some(m.(end := newEnd))
  }

  /** A new end date; an undefined or invalid `Date` is ignored, and so is one that puts the end before the start. */
  function HandleChangeEndDate(env: Env, m: EventModel, newDate: Option<int>): (r: Option<EventModel>)
    ensures r.Some? <==> newDate.Some? && StartUtc(env, m) <= Resolve(env, m.end.(date := newDate.value))
    ensures r.Some? ==> r.value.end == m.end.(date := newDate.value) && Changed(m, r.value) <= {EndField}
  {
    match newDate
    case None => None
    case Some(date) => HandleEndUpdate(env, m, m.end.(date := date))
  }

  /** A new end time, measured from the end-time base; dropped if it puts the end before the start. */
  function HandleChangeEndTime(env: Env, m: EventModel, newTime: int): (r: Option<EventModel>)
    ensures r.Some? <==> StartUtc(env, m) <= Resolve(env, GetEndTimeChange(env, m, newTime))
    ensures r.Some? ==> r.value.end == GetEndTimeChange(env, m, newTime) && Changed(m, r.value) <= {EndField}
  {
    HandleEndUpdate(env, m, GetEndTimeChange(env, m, newTime))
  }

  /** The four inputs of the row and what each one reports. */
  datatype Edit =
    | StartDateEdit(date: Option<int>)
    | StartTimeEdit(time: int)
    | EndDateEdit(date: Option<int>)
    | EndTimeEdit(time: int)

  /** The model handed to `setModel` for an input's change, if any. */
  function ApplyEdit(env: Env, m: EventModel, e: Edit): Option<EventModel> {
    match e
    case StartDateEdit(d) => HandleChangeStartDate(env, m, d)
    case StartTimeEdit(t) => Some(HandleChangeStartTime(env, m, t))
    case EndDateEdit(d) => HandleChangeEndDate(env, m, d)
    case EndTimeEdit(t) => HandleChangeEndTime(env, m, t)
  }

  // ---------------------------------------------------------------------
  // Properties

  /** Exactly 24 hours is already multi-day; a millisecond less is duration mode. */
  lemma DurationThreshold(env: Env, m: EventModel)
    ensures EndUtc(env, m) - StartUtc(env, m) == MILLISECONDS_IN_DAY ==> !IsDuration(env, m)
    ensures EndUtc(env, m) - StartUtc(env, m) == MILLISECONDS_IN_DAY - 1 ==> IsDuration(env, m)
  {
  }

  /** Moving the start keeps the resolved duration, and the end keeps its zone. */
  lemma StartChangePreservesDuration(env: Env, m: EventModel, newStart: DateTimeModel)
    requires Consistent(env)
    ensures var c := GetStartChange(env, m, newStart);
      && Resolve(env, c.end) - Resolve(env, c.start) == EndUtc(env, m) - StartUtc(env, m)
      && Resolve(env, c.end) - EndUtc(env, m) == Resolve(env, newStart) - StartUtc(env, m)
      && c.end.tzid == m.end.tzid
  {
    var newEndDate := EndUtc(env, m) + (Resolve(env, newStart) - StartUtc(env, m));
    assert env.timeInUtc(env.dateTimeState(env.zones.toZone(newEndDate, m.end.tzid), m.end.tzid)) == newEndDate;
  }

  /** Both start handlers keep the event's resolved duration and the end's zone. */
  lemma StartEditsPreserveDuration(env: Env, m: EventModel, e: Edit, m': EventModel)
    requires Consistent(env)
    requires e.StartDateEdit? || e.StartTimeEdit?
    requires ApplyEdit(env, m, e) == Some(m')
    ensures EndUtc(env, m') - StartUtc(env, m') == EndUtc(env, m) - StartUtc(env, m)
    ensures m'.end.tzid == m.end.tzid
  {
    if e.StartDateEdit? {
      StartChangePreservesDuration(env, m, m.start.(date := e.date.value));
    } else {
      StartChangePreservesDuration(env, m, m.start.(time := e.time));
    }
  }

  /** No handler of the row ever hands `setModel` a model whose end precedes its start. */
  lemma EditsPreserveOrder(env: Env, m: EventModel, e: Edit, m': EventModel)
    requires Consistent(env)
    requires Ordered(env, m)
    requires ApplyEdit(env, m, e) == Some(m')
    ensures Ordered(env, m')
  {
    if e.StartDateEdit? || e.StartTimeEdit? {
      StartEditsPreserveDuration(env, m, e, m');
    }
  }

  /** The end chosen by a new end time: base instant plus the time's offset from the minimum, in the end's zone. */
  lemma EndTimeChangeInstant(env: Env, m: EventModel, newTime: int)
    requires Consistent(env)
    ensures var e := GetEndTimeChange(env, m, newTime);
      && Resolve(env, e) == env.zones.fromZone(EndTimeBase(env, m), m.end.tzid) + (newTime - MinEndTime(env, m))
      && e.tzid == m.end.tzid
  {
    var newEndUtcDate := env.zones.fromZone(EndTimeBase(env, m), m.end.tzid) + (newTime - MinEndTime(env, m));
    assert env.timeInUtc(env.dateTimeState(env.zones.toZone(newEndUtcDate, m.end.tzid), m.end.tzid)) == newEndUtcDate;
  }

  /** In duration mode an end time is an offset from the start instant itself. */
  lemma DurationEndTimeFromStart(env: Env, m: EventModel, newTime: int)
    requires Consistent(env)
    requires IsDuration(env, m)
    ensures Resolve(env, GetEndTimeChange(env, m, newTime)) == StartUtc(env, m) + (newTime - MinEndTime(env, m))
  {
    EndTimeChangeInstant(env, m, newTime);
    assert env.zones.fromZone(env.zones.toZone(StartUtc(env, m), m.end.tzid), m.end.tzid) == StartUtc(env, m);
  }

  /** In duration mode an end time is accepted exactly when it is not below the minimum end time. */
  lemma DurationEndTimeAcceptedIffAboveMin(env: Env, m: EventModel, newTime: int)
    requires Consistent(env)
    requires IsDuration(env, m)
    ensures HandleChangeEndTime(env, m, newTime).Some? <==> newTime >= MinEndTime(env, m)
  {
    DurationEndTimeFromStart(env, m, newTime);
  }

  /** In duration mode picking the minimum end time gives a zero-length event, which is accepted. */
  lemma MinEndTimeMeetsStart(env: Env, m: EventModel)
    requires Consistent(env)
    requires IsDuration(env, m)
    ensures HandleChangeEndTime(env, m, MinEndTime(env, m)).Some?
    ensures Resolve(env, HandleChangeEndTime(env, m, MinEndTime(env, m)).value.end) == StartUtc(env, m)
  {
    DurationEndTimeFromStart(env, m, MinEndTime(env, m));
  }

  /** Outside duration mode the minimum end time is midnight, read through getDateTimeState. */
  lemma MultiDayMinEndTime(env: Env, m: EventModel)
    requires !IsDuration(env, m)
    ensures MinEndTime(env, m) == env.dateTimeState(DEFAULT_MIN_TIME, "").time
    ensures EndTimeBase(env, m) == DateFnsUtc.StartOfDay(env.zones.toZone(EndUtc(env, m), m.end.tzid))
  {
  }

  /** Outside duration mode an end time is an offset from the end day's midnight, read in the end's zone. */
  lemma MultiDayEndTimeFromMidnight(env: Env, m: EventModel, newTime: int)
    requires Consistent(env)
    requires !IsDuration(env, m)
    ensures Resolve(env, GetEndTimeChange(env, m, newTime))
      == env.zones.fromZone(DateFnsUtc.StartOfDay(env.zones.toZone(EndUtc(env, m), m.end.tzid)), m.end.tzid)
         + (newTime - env.dateTimeState(DEFAULT_MIN_TIME, "").time)
  {
    EndTimeChangeInstant(env, m, newTime);
  }

  /**
   * For a timed event the minimum end date is the start's date in the end's
   * zone, or the next local day when that date with the current end time
   * would resolve before the start. For an all-day event it is the start date.
   */
  lemma MinEndDateChoice(env: Env, m: EventModel)
    ensures m.isAllDay ==> MinEndDate(env, m) == m.start.date
    ensures !m.isAllDay ==>
      var minDate := StartDateInEndZone(env, m);
      (MinEndDate(env, m) == minDate || MinEndDate(env, m) == AddLocalDays(env, minDate, 1))
      && (HandleChangeEndDate(env, m, Some(minDate)).Some? ==> MinEndDate(env, m) == minDate)
      && (HandleChangeEndDate(env, m, Some(minDate)).None? ==> MinEndDate(env, m) == AddLocalDays(env, minDate, 1))
  {
  }

  /** The advanced minimum end date is one local calendar day after the start's date. */
  lemma AddLocalDaysIsNextDay(env: Env, date: int)
    requires Consistent(env)
    ensures env.zones.toZone(AddLocalDays(env, date, 1), env.localTz) == env.zones.toZone(date, env.localTz) + MILLISECONDS_IN_DAY
    ensures AddLocalDays(env, date, 1) != date
  {
  }

  /** For a timed event the start's date in the end's zone is the minimum end date exactly when picking it is accepted. */
  lemma MinEndDateIsFirstAccepted(env: Env, m: EventModel)
    requires Consistent(env)
    requires !m.isAllDay
    ensures MinEndDate(env, m) == StartDateInEndZone(env, m)
      <==> HandleChangeEndDate(env, m, Some(StartDateInEndZone(env, m))).Some?
  {
    AddLocalDaysIsNextDay(env, StartDateInEndZone(env, m));
  }
}
