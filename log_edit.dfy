/**
 * The time rewrite both edit dialogs apply when an edited log is submitted
 * (handleUpdateSubmit in src/components/logs/history/historyPage.tsx and in
 * src/components/logs/timer/logDisplay.tsx, which share the rule line for
 * line). A time field is what `<input type="time">` submits: empty, or hours
 * and minutes that `split(':').map(Number)` yields.
 */
module LogEdit {
  import opened Wrappers
  import Domain

  /** A submitted time field: None for the empty string, else (hours, minutes). */
  type ClockField = Option<(int, int)>

  /** A field a time input can produce: empty, or a clock time of the day. */
  predicate IsClockTime(field: ClockField) {
    field.Some? ==> 0 <= field.value.0 < 24 && 0 <= field.value.1 < 60
  }

  /** `t` after `setHours(hours, minutes, 0, 0)` when the field is filled, else `t` itself. */
  function AtClock(t: int, field: ClockField): (r: int)
    ensures field.None? ==> r == t
    ensures IsClockTime(field) ==> Domain.StartOfDay(r) == Domain.StartOfDay(t)
    ensures field.Some? && IsClockTime(field) ==>
      r == Domain.StartOfDay(t) + field.value.0 * Domain.HOUR_MS + field.value.1 * Domain.MINUTE_MS
  {
    match field
    case None => t
    case Some((hours, minutes)) =>
      if 0 <= hours < 24 && 0 <= minutes < 60 then
        Domain.SetHoursMinutesSameDay(t, hours, minutes);
        Domain.SetHoursMinutes(t, hours, minutes)
      else Domain.SetHoursMinutes(t, hours, minutes)
  }

  /** `description || null`: the empty string is sent as null. */
  function NullIfEmpty(s: string): (r: Option<string>)
    ensures r.None? <==> s == ""
    ensures r.Some? ==> r.value == s
  {
    if s == "" then None else Some(s)
  }

  /**
   * The rewrite of the edited log's start and finish. The start takes the
   * entered clock time on its own day; the finish is built on the old
   * finish's day, or on the start's day for a log with no finish, and is null
   * when its field is empty; a start that ends up after the finish moves back
   * exactly one day. With clock times and a finish on the start's day, the
   * start is then never after the finish.
   */
  method RewriteTimes(startedAt: int, finishedAt: Option<int>, startField: ClockField, finishField: ClockField)
    returns (newStartedAt: int, newFinishedAt: Option<int>)
    ensures newFinishedAt.None? <==> finishField.None?
    ensures finishField.Some? ==> newFinishedAt.value == AtClock(finishedAt.GetOr(startedAt), finishField)
    ensures var entered := AtClock(startedAt, startField);
      if newFinishedAt.Some? && entered > newFinishedAt.value then newStartedAt == entered - Domain.DAY_MS
      else newStartedAt == entered
    ensures IsClockTime(startField) ==>
      Domain.StartOfDay(newStartedAt) == Domain.StartOfDay(startedAt)
      || Domain.StartOfDay(newStartedAt) == Domain.StartOfDay(startedAt) - Domain.DAY_MS
    ensures (IsClockTime(startField) && IsClockTime(finishField) && finishField.Some?
             && Domain.StartOfDay(finishedAt.GetOr(startedAt)) == Domain.StartOfDay(startedAt)) ==>
      newStartedAt <= newFinishedAt.value
  {
    newStartedAt := startedAt;
    if startField.Some? {
      var (hours, minutes) := startField.value;
      newStartedAt := AtClock(newStartedAt, Some((hours, minutes)));
    }
    newFinishedAt := None;
    if finishField.Some? {
      var baseDate := if finishedAt.Some? then finishedAt.value else startedAt;
      var (hours, minutes) := finishField.value;
      baseDate := AtClock(baseDate, Some((hours, minutes)));
      newFinishedAt := Some(baseDate);
    }
    ghost var entered := newStartedAt;
    if newFinishedAt.Some? && newStartedAt > newFinishedAt.value {
      newStartedAt := newStartedAt - Domain.DAY_MS;
    }
    if IsClockTime(startField) {
      Domain.StartOfDayShift(entered, -1);
    }
  }
}
