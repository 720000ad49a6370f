/** Option, for values JavaScript may leave `undefined` and for updates a handler may skip. */
module Wrappers {
  datatype Option<+T> = None | Some(value: T)
}

/**
 * The event editor's model (interfaces/EventModel): one record replaced
 * wholesale on every edit. Dates and times are JavaScript `Date` values,
 * kept as their millisecond timestamps.
 */
module Model {
  import opened Wrappers

  /** An IANA-style time zone identifier. */
  type Tz = string

  /** The recurrence description; this core only passes it along. */
  type Frequency(==)
  type Notification(==)
  type Calendar(==)

  /**
   * One edge of an event: a wall-clock date (a midnight) and a time of day
   * (a `Date` on 2000-01-01) meant in zone `tzid`.
   */
  datatype DateTimeModel = DateTimeModel(date: int, time: int, tzid: Tz)

  /** Whether the user has edited the full-day or the part-day notification list. */
  datatype ModifiedFlags = ModifiedFlags(fullDay: bool, partDay: bool)

  datatype EventModel = EventModel(
    isAllDay: bool,
    start: DateTimeModel,
    end: DateTimeModel,
    frequencyModel: Frequency,
    hasFrequencyRow: bool,
    hasCalendarRow: bool,
    calendars: seq<Calendar>,
    title: string,
    location: string,
    description: string,
    fullDayNotifications: seq<Notification>,
    partDayNotifications: seq<Notification>,
    defaultFullDayNotification: Notification,
    defaultPartDayNotification: Notification,
    hasModifiedNotifications: ModifiedFlags)

  /** The fields of EventModel, to state which of them an edit may touch. */
  datatype Field =
    | IsAllDayField | StartField | EndField | FrequencyModelField
    | HasFrequencyRowField | HasCalendarRowField | CalendarsField
    | TitleField | LocationField | DescriptionField
    | FullDayNotificationsField | PartDayNotificationsField
    | DefaultFullDayNotificationField | DefaultPartDayNotificationField
    | HasModifiedNotificationsField

  /** The fields on which `a` and `b` differ. */
  function Changed(a: EventModel, b: EventModel): set<Field> {
    (if a.isAllDay != b.isAllDay then {IsAllDayField} else {})
    + (if a.start != b.start then {StartField} else {})
    + (if a.end != b.end then {EndField} else {})
    + (if a.frequencyModel != b.frequencyModel then {FrequencyModelField} else {})
    + (if a.hasFrequencyRow != b.hasFrequencyRow then {HasFrequencyRowField} else {})
    + (if a.hasCalendarRow != b.hasCalendarRow then {HasCalendarRowField} else {})
    + (if a.calendars != b.calendars then {CalendarsField} else {})
    + (if a.title != b.title then {TitleField} else {})
    + (if a.location != b.location then {LocationField} else {})
    + (if a.description != b.description then {DescriptionField} else {})
    + (if a.fullDayNotifications != b.fullDayNotifications then {FullDayNotificationsField} else {})
    + (if a.partDayNotifications != b.partDayNotifications then {PartDayNotificationsField} else {})
    + (if a.defaultFullDayNotification != b.defaultFullDayNotification then {DefaultFullDayNotificationField} else {})
    + (if a.defaultPartDayNotification != b.defaultPartDayNotification then {DefaultPartDayNotificationField} else {})
    + (if a.hasModifiedNotifications != b.hasModifiedNotifications then {HasModifiedNotificationsField} else {})
  }

  /** Two models that differ on no field are the same model. */
  lemma NoChangeIsIdentity(a: EventModel, b: EventModel)
    ensures Changed(a, b) == {} <==> a == b
  {
    if Changed(a, b) == {} {
      assert IsAllDayField !in Changed(a, b) && StartField !in Changed(a, b) && EndField !in Changed(a, b);
      assert FrequencyModelField !in Changed(a, b) && HasFrequencyRowField !in Changed(a, b);
      assert HasCalendarRowField !in Changed(a, b) && CalendarsField !in Changed(a, b);
      assert TitleField !in Changed(a, b) && LocationField !in Changed(a, b) && DescriptionField !in Changed(a, b);
      assert FullDayNotificationsField !in Changed(a, b) && PartDayNotificationsField !in Changed(a, b);
      assert DefaultFullDayNotificationField !in Changed(a, b) && DefaultPartDayNotificationField !in Changed(a, b);
      assert HasModifiedNotificationsField !in Changed(a, b);
    }
  }

  /**
   * A partial EventModel, as an object spread over a model: a field is
   * overwritten when the patch carries it.
   */
  datatype Patch = Patch(
    isAllDay: Option<bool>,
    start: Option<DateTimeModel>,
    end: Option<DateTimeModel>,
    frequencyModel: Option<Frequency>,
    hasFrequencyRow: Option<bool>,
    hasCalendarRow: Option<bool>,
    calendars: Option<seq<Calendar>>,
    title: Option<string>,
    location: Option<string>,
    description: Option<string>,
    fullDayNotifications: Option<seq<Notification>>,
    partDayNotifications: Option<seq<Notification>>,
    defaultFullDayNotification: Option<Notification>,
    defaultPartDayNotification: Option<Notification>,
    hasModifiedNotifications: Option<ModifiedFlags>)

  /** The fields a patch carries. */
  function PatchFields(p: Patch): set<Field> {
    (if p.isAllDay.Some? then {IsAllDayField} else {})
    + (if p.start.Some? then {StartField} else {})
    + (if p.end.Some? then {EndField} else {})
    + (if p.frequencyModel.Some? then {FrequencyModelField} else {})
    + (if p.hasFrequencyRow.Some? then {HasFrequencyRowField} else {})
    + (if p.hasCalendarRow.Some? then {HasCalendarRowField} else {})
    + (if p.calendars.Some? then {CalendarsField} else {})
    + (if p.title.Some? then {TitleField} else {})
    + (if p.location.Some? then {LocationField} else {})
    + (if p.description.Some? then {DescriptionField} else {})
    + (if p.fullDayNotifications.Some? then {FullDayNotificationsField} else {})
    + (if p.partDayNotifications.Some? then {PartDayNotificationsField} else {})
    + (if p.defaultFullDayNotification.Some? then {DefaultFullDayNotificationField} else {})
    + (if p.defaultPartDayNotification.Some? then {DefaultPartDayNotificationField} else {})
    + (if p.hasModifiedNotifications.Some? then {HasModifiedNotificationsField} else {})
  }

  /** The value a field ends with: the patch's when it carries one, the model's otherwise. */
  function Pick<T>(o: Option<T>, current: T): T {
    match o
    case Some(v) => v
    case None => current
  }

  /** `{ ...m, ...p }`: fields the patch does not carry keep their values, the others take the patch's. */
  function Overlay(m: EventModel, p: Patch): (r: EventModel)
    ensures Changed(m, r) <= PatchFields(p)
    ensures p.isAllDay.Some? ==> r.isAllDay == p.isAllDay.value
    ensures p.start.Some? ==> r.start == p.start.value
    ensures p.end.Some? ==> r.end == p.end.value
    ensures p.frequencyModel.Some? ==> r.frequencyModel == p.frequencyModel.value
    ensures p.hasFrequencyRow.Some? ==> r.hasFrequencyRow == p.hasFrequencyRow.value
    ensures p.hasCalendarRow.Some? ==> r.hasCalendarRow == p.hasCalendarRow.value
    ensures p.calendars.Some? ==> r.calendars == p.calendars.value
    ensures p.title.Some? ==> r.title == p.title.value
    ensures p.location.Some? ==> r.location == p.location.value
    ensures p.description.Some? ==> r.description == p.description.value
    ensures p.fullDayNotifications.Some? ==> r.fullDayNotifications == p.fullDayNotifications.value
    ensures p.partDayNotifications.Some? ==> r.partDayNotifications == p.partDayNotifications.value
    ensures p.defaultFullDayNotification.Some? ==> r.defaultFullDayNotification == p.defaultFullDayNotification.value
    ensures p.defaultPartDayNotification.Some? ==> r.defaultPartDayNotification == p.defaultPartDayNotification.value
    ensures p.hasModifiedNotifications.Some? ==> r.hasModifiedNotifications == p.hasModifiedNotifications.value
  {
    EventModel(
      Pick(p.isAllDay, m.isAllDay),
      Pick(p.start, m.start),
      Pick(p.end, m.end),
      Pick(p.frequencyModel, m.frequencyModel),
      Pick(p.hasFrequencyRow, m.hasFrequencyRow),
      Pick(p.hasCalendarRow, m.hasCalendarRow),
      Pick(p.calendars, m.calendars),
      Pick(p.title, m.title),
      Pick(p.location, m.location),
      Pick(p.description, m.description),
      Pick(p.fullDayNotifications, m.fullDayNotifications),
      Pick(p.partDayNotifications, m.partDayNotifications),
      Pick(p.defaultFullDayNotification, m.defaultFullDayNotification),
      Pick(p.defaultPartDayNotification, m.defaultPartDayNotification),
      Pick(p.hasModifiedNotifications, m.hasModifiedNotifications))
  }
}
