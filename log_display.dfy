/**
 * The daily activity list (src/components/logs/timer/logDisplay.tsx): the
 * selected day and its navigation, the stored view mode, the Today/Yesterday
 * label, and the update it sends for an edited log.
 */
module LogDisplay {
  import opened Wrappers
  import Domain
  import Records
  import Analytics
  import GetAllLogs
  import LogEdit

  /** The localStorage key of the view preference. */
  const STORAGE_KEY: string := "dailylogger-view-mode"

  datatype ViewMode = Table | Card

  /** The fields sent to updateLog for an edited log. */
  datatype LogUpdate = LogUpdate(
    id: Records.Id,
    description: Option<string>,
    startedAt: int,
    finishedAt: Option<int>,
    tagIds: seq<Records.Id>)

  /** The string a view mode is stored as. */
  function ModeName(mode: ViewMode): string {
    match mode
    case Table => "table"
    case Card => "card"
  }

  /** The saved preference, adopted only when it is exactly "table" or "card". */
  function AdoptedViewMode(saved: Option<string>): (r: Option<ViewMode>)
    ensures r == Some(Table) <==> saved == Some("table")
    ensures r == Some(Card) <==> saved == Some("card")
    ensures r.None? <==> saved.None? || (saved.value != "table" && saved.value != "card")
  {
    if saved == Some("table") then Some(Table)
    else if saved == Some("card") then Some(Card)
    else None
  }

  /** A mode written by handleViewModeChange is the one adopted on the next load. */
  lemma {:induction false} ViewModeRoundTrip(mode: ViewMode)
    ensures AdoptedViewMode(Some(ModeName(mode))) == Some(mode)
  {
  }

  /**
   * formatDateDisplay's fixed labels: "Today" on the day of `now`, "Yesterday"
   * on the day before, and otherwise a locale date, which is None here.
   */
  function DateLabel(d: int, now: int): (shown: Option<string>)
    ensures shown == Some("Today") <==> Domain.StartOfDay(d) == Domain.StartOfDay(now)
    ensures shown == Some("Yesterday") <==> Domain.StartOfDay(d) == Domain.StartOfDay(now) - Domain.DAY_MS
    ensures shown.None? <==>
      Domain.StartOfDay(d) != Domain.StartOfDay(now) && Domain.StartOfDay(d) != Domain.StartOfDay(now) - Domain.DAY_MS
  {
    Domain.StartOfDayShift(now, -1);
    if Domain.StartOfDay(d) == Domain.StartOfDay(now) then Some("Today")
    else if Domain.StartOfDay(d) == Domain.StartOfDay(now - Domain.DAY_MS) then Some("Yesterday")
    else None
  }

  /** The list's state: the sort direction, the selected day and the view mode. */
  class DisplayState {
    var sort: GetAllLogs.SortOrder
    var date: int
    var viewMode: ViewMode

    /** The initial state: newest first, the start of today, the table view. */
    constructor(now: int)
      ensures sort == GetAllLogs.Desc && date == Domain.StartOfDay(now) && viewMode == Table
    {
      sort := GetAllLogs.Desc;
      date := Domain.StartOfDay(now);
      viewMode := Table;
    }

    /** The mount effect: adopt the saved view mode when it is a valid one. */
    method LoadViewMode(saved: Option<string>)
      modifies this`viewMode
      ensures viewMode == AdoptedViewMode(saved).GetOr(old(viewMode))
    {
      if saved == Some("table") || saved == Some("card") {
        viewMode := AdoptedViewMode(saved).value;
      }
    }

    /** handleViewModeChange: show `mode` and return the string stored under STORAGE_KEY. */
    method ChangeViewMode(mode: ViewMode) returns (stored: string)
      modifies this`viewMode
      ensures viewMode == mode && AdoptedViewMode(Some(stored)) == Some(mode)
    {
      viewMode := mode;
      stored := ModeName(mode);
    }

    /** The sort button: flip the direction (the day stays). */
    method ToggleSort()
      modifies this`sort
      ensures sort == (if old(sort) == GetAllLogs.Desc then GetAllLogs.Asc else GetAllLogs.Desc)
    {
      sort := if sort == GetAllLogs.Desc then GetAllLogs.Asc else GetAllLogs.Desc;
    }

    /** The previous-day button: one calendar day earlier, at the same time of day. */
    method PreviousDay()
      modifies this`date
      ensures date == old(date) - Domain.DAY_MS
      ensures Domain.StartOfDay(date) == Domain.StartOfDay(old(date)) - Domain.DAY_MS
    {
      Domain.StartOfDayShift(date, -1);
      date := date - Domain.DAY_MS;
    }

    /** The next-day button: one calendar day later, at the same time of day. */
    method NextDay()
      modifies this`date
      ensures date == old(date) + Domain.DAY_MS
      ensures Domain.StartOfDay(date) == Domain.StartOfDay(old(date)) + Domain.DAY_MS
    {
      Domain.StartOfDayShift(date, 1);
      date := date + Domain.DAY_MS;
    }

    /** The calendar's onSelect: a picked day at its start, or the current instant when the pick is cleared. */
    method SelectDate(picked: Option<int>, now: int)
      modifies this`date
      ensures picked.Some? ==> date == Domain.StartOfDay(picked.value) && Domain.StartOfDay(date) == date
      ensures picked.None? ==> date == now
    {
      if picked.Some? {
        Domain.StartOfDayProperties(picked.value);
        date := Domain.StartOfDay(picked.value);
      } else {
        date := now;
      }
    }
  }

  /** After the previous-day button on today's start, the label reads "Yesterday", and Next brings back "Today". */
  lemma {:induction false} PreviousDayIsYesterday(now: int)
    ensures DateLabel(Domain.StartOfDay(now) - Domain.DAY_MS, now) == Some("Yesterday")
    ensures DateLabel(Domain.StartOfDay(now) - Domain.DAY_MS + Domain.DAY_MS, now) == Some("Today")
  {
    Domain.StartOfDayProperties(now);
    Domain.StartOfDayShift(Domain.StartOfDay(now), -1);
  }

  /** The ids of the edited log's tags, in order: `tags.map(t => t.id)`. */
  function TagIdsOf(tags: seq<Records.Tag>): (ids: seq<Records.Id>)
    ensures |ids| == |tags| && forall k :: 0 <= k < |tags| ==> ids[k] == tags[k].id
  {
    seq(|tags|, k requires 0 <= k < |tags| => tags[k].id)
  }

  /**
   * handleUpdateSubmit: nothing without a log being edited; otherwise the
   * log's id, the description field (empty as null), the rewritten start and
   * finish, and the log's own tag ids carried over unchanged.
   */
  method HandleUpdateSubmit(logToEdit: Option<Analytics.LogWithTags>, description: string,
                            startField: LogEdit.ClockField, finishField: LogEdit.ClockField)
    returns (update: Option<LogUpdate>)
    ensures logToEdit.None? <==> update.None?
    ensures update.Some? ==>
      update.value.id == logToEdit.value.log.id
      && update.value.description == LogEdit.NullIfEmpty(description)
      && update.value.tagIds == TagIdsOf(logToEdit.value.tags)
      && (update.value.finishedAt.None? <==> finishField.None?)
      && (finishField.Some? ==>
            update.value.finishedAt.value == LogEdit.AtClock(logToEdit.value.log.finishedAt.GetOr(logToEdit.value.log.startedAt), finishField))
      && (var entered := LogEdit.AtClock(logToEdit.value.log.startedAt, startField);
          update.value.startedAt ==
            (if update.value.finishedAt.Some? && entered > update.value.finishedAt.value then entered - Domain.DAY_MS
             else entered))
      && ((LogEdit.IsClockTime(startField) && LogEdit.IsClockTime(finishField) && finishField.Some?
           && logToEdit.value.log.finishedAt.None?) ==> update.value.startedAt <= update.value.finishedAt.value)
  {
    if logToEdit.None? {
      return None;
    }
    var log := logToEdit.value.log;
    var newStartedAt, newFinishedAt := LogEdit.RewriteTimes(log.startedAt, log.finishedAt, startField, finishField);
    update := Some(LogUpdate(log.id, LogEdit.NullIfEmpty(description), newStartedAt, newFinishedAt,
                             TagIdsOf(logToEdit.value.tags)));
  }
}
