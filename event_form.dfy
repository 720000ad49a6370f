/**
 * The event form (eventModal/EventForm.tsx): which rows it shows and the
 * update each field's `onChange` hands to `setModel`, always a fresh model
 * spread from the current one.
 */
module EventForm {
  import opened Wrappers
  import opened Model

  /**
   * Toggling all-day overlays what `getAllDayCheck(model, isAllDay)` returns
   * on the model; that helper is not part of this model and is a parameter.
   */
  function ToggleAllDay(m: EventModel, isAllDay: bool, getAllDayCheck: (EventModel, bool) -> Patch): (r: EventModel)
    ensures Changed(m, r) <= PatchFields(getAllDayCheck(m, isAllDay))
    ensures getAllDayCheck(m, isAllDay).isAllDay.Some? ==> r.isAllDay == getAllDayCheck(m, isAllDay).isAllDay.value
  {
    Overlay(m, getAllDayCheck(m, isAllDay))
  }

  function ChangeFrequency(m: EventModel, frequencyModel: Frequency): (r: EventModel)
    ensures r.frequencyModel == frequencyModel
    ensures Changed(m, r) <= {FrequencyModelField}
  {
    m.(frequencyModel := frequencyModel)
  }

  function ChangeTitle(m: EventModel, value: string): (r: EventModel)
    ensures r.title == value
    ensures Changed(m, r) <= {TitleField}
  {
    m.(title := value)
  }

  function ChangeLocation(m: EventModel, location: string): (r: EventModel)
    ensures r.location == location
    ensures Changed(m, r) <= {LocationField}
  {
    m.(location := location)
  }

  function ChangeDescription(m: EventModel, description: string): (r: EventModel)
    ensures r.description == description
    ensures Changed(m, r) <= {DescriptionField}
  {
    m.(description := description)
  }

  /** The notification list the form shows: full-day for an all-day event, part-day otherwise. */
  function ShownNotifications(m: EventModel): seq<Notification> {
    if m.isAllDay then m.fullDayNotifications else m.partDayNotifications
  }

  /**
   * An edit of the shown notification list: it replaces that list and marks
   * only that list as modified by the user.
   */
  function ChangeNotifications(m: EventModel, notifications: seq<Notification>): (r: EventModel)
    ensures m.isAllDay ==> Changed(m, r) <= {FullDayNotificationsField, HasModifiedNotificationsField}
    ensures !m.isAllDay ==> Changed(m, r) <= {PartDayNotificationsField, HasModifiedNotificationsField}
    ensures r.hasModifiedNotifications.fullDay == (m.hasModifiedNotifications.fullDay || m.isAllDay)
    ensures r.hasModifiedNotifications.partDay == (m.hasModifiedNotifications.partDay || !m.isAllDay)
  {
    if m.isAllDay then
      m.(fullDayNotifications := notifications,
         hasModifiedNotifications := m.hasModifiedNotifications.(fullDay := true))
    else
      m.(partDayNotifications := notifications,
         hasModifiedNotifications := m.hasModifiedNotifications.(partDay := true))
  }

  /** After an edit the form shows the new list; the list not shown is neither read nor written. */
  lemma NotificationEditTargetsShownList(m: EventModel, notifications: seq<Notification>)
    ensures var r := ChangeNotifications(m, notifications);
      && ShownNotifications(r) == notifications
      && r.isAllDay == m.isAllDay
      && (m.isAllDay ==> r.partDayNotifications == m.partDayNotifications)
      && (!m.isAllDay ==> r.fullDayNotifications == m.fullDayNotifications)
  {
  }

  /** The edited list does not depend on the list that is not shown. */
  lemma NotificationEditIgnoresHiddenList(m: EventModel, hidden: seq<Notification>, notifications: seq<Notification>)
    ensures var m' := if m.isAllDay then m.(partDayNotifications := hidden) else m.(fullDayNotifications := hidden);
      var r := ChangeNotifications(m, notifications);
      var r' := ChangeNotifications(m', notifications);
      ShownNotifications(r') == ShownNotifications(r) && r'.hasModifiedNotifications == r.hasModifiedNotifications
  {
  }

  /** The calendar selector: shown when there are calendars, disabled (with an explanation) without a calendar row. */
  datatype CalendarRow = CalendarRow(disabled: bool, showsDisabledWhy: bool)

  /** The optional rows of the form. */
  datatype Rows = Rows(timezoneRows: bool, frequencyRow: bool, calendarRow: Option<CalendarRow>)

  function FormRows(m: EventModel): (r: Rows)
    ensures r.timezoneRows <==> !m.isAllDay
    ensures r.frequencyRow <==> m.hasFrequencyRow
    ensures r.calendarRow.Some? <==> |m.calendars| > 0
    ensures r.calendarRow.Some? ==> (r.calendarRow.value.disabled <==> !m.hasCalendarRow)
    ensures r.calendarRow.Some? ==> r.calendarRow.value.showsDisabledWhy == r.calendarRow.value.disabled
  {
    Rows(
      !m.isAllDay,
      m.hasFrequencyRow,
      if |m.calendars| > 0 then Some(CalendarRow(!m.hasCalendarRow, !m.hasCalendarRow)) else None)
  }

  /** Edits of the text fields, the recurrence and the notifications leave the form's rows as they are. */
  lemma FieldEditsKeepRows(m: EventModel, text: string, f: Frequency, ns: seq<Notification>)
    ensures FormRows(ChangeTitle(m, text)) == FormRows(m)
    ensures FormRows(ChangeLocation(m, text)) == FormRows(m)
    ensures FormRows(ChangeDescription(m, text)) == FormRows(m)
    ensures FormRows(ChangeFrequency(m, f)) == FormRows(m)
    ensures FormRows(ChangeNotifications(m, ns)) == FormRows(m)
  {
  }
}
