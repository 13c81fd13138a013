# Dailylogger core in Dafny

Dailylogger is a personal time tracker. A user starts an activity, the timer
runs, and stopping it stores a finished log with its duration in minutes.
Logs carry tags, and an analytics view aggregates the user's finished logs
into daily and per-tag totals, an average, the longest session and the
current streak of consecutive active days.

This project models the logic behind that:

- the pure time arithmetic and formatting of `src/lib/domain.ts` and
  `src/lib/utils.ts`;
- the per-user log and tag store with its server actions: create, stop and
  cancel an activity, and create, update, delete and get-or-create a tag;
- the analytics aggregation, the streak calculator, the daily total and
  the daily-goal update;
- the history query `getAllLogs`, with its filter, order, paging and page
  count;
- the client-side rules of the timer widget, the history page, the daily
  activity list and the recent-activities card;
- the authentication middleware's redirect decision and path matcher.

Modelling choices:

- **Time.** An instant is an integer number of milliseconds. A local day is
  a fixed block of 86 400 000 ms, so `startOfDay`, `setHours(h, m, 0, 0)`
  and `setDate(±1)` are integer arithmetic (`Domain.StartOfDay`,
  `Domain.SetHoursMinutes`, `Domain.StartOfDayShift`).
- **Rounding.** `Math.round(a / b)` with `b > 0` is written exactly as
  `(2a + b) div 2b` (`Domain.RoundDiv`), and `Math.floor` is Dafny's
  floor division.
- **Remainder.** JavaScript's `%` truncates toward zero, and
  `Domain.JsRem` writes that out for negative operands.
- **Store.** The database is the class `Records.Database`. Its fields are
  the logs, the tags, the users' daily goals and the next fresh id. Each
  server action is one atomic method on it. The method's contract ties its
  result and new state to an outcome function on the old state (for
  example `CreateLog.CreateLogOutcome`). Lemmas about that function state
  the error cases, the record built, "nothing else changes" and that the
  at-most-one-running-log-per-user invariant is kept. The predicate
  `Database.Valid()` is that invariant together with unique ids below the
  counter; the constructor establishes it and every action method keeps it.
- **Inputs from outside.** The session, the clock (`new Date()`,
  `Date.now()`, `performance.now()`), `Math.random()`, `localStorage` and
  the result of `new URL(...).hostname` are all parameters.

## Model

| member | source | states |
|---|---|---|
| Domain.RoundDiv | src/lib/domain.ts:12 | `Math.round(a/b)` for positive b: the nearest integer, with halves rounded up |
| Domain.FloorDiv | src/lib/domain.ts:42 | `Math.floor(a/b)` for positive b: the greatest integer whose multiple of b does not exceed a |
| Domain.JsRem | src/lib/domain.ts:43 | JavaScript's truncating `%`: the Euclidean remainder for non-negative operands, and non-positive above -b for negative ones |
| Domain.CalculateDuration | src/lib/domain.ts:9-13 | never negative; 0 when the finish precedes the start; otherwise the elapsed minutes rounded to the nearest integer |
| Domain.CalculateElapsed | src/lib/domain.ts:18-20 | never negative; equal to now - start whenever the start is not in the future |
| Domain.FormatDurationRoundTrip | src/lib/domain.ts:39-48 | "< 1m" exactly for under one minute; for every other count, reading the label back ("Nm", "Hh" or "Hh Mm") gives the minutes again |
| Domain.FormatElapsed | src/lib/domain.ts:53-59 | for a non-negative duration, minutes and seconds are below 60 and hours·3600 + minutes·60 + seconds is the whole seconds elapsed |
| Domain.FormatTimeStringRoundTrip | src/lib/domain.ts:64-67 | "HH:MM:SS" with each field padded to two digits splits back into the three numbers it was built from |
| Domain.StartOfDay | src/lib/domain.ts:72-76 | a day boundary at or before the instant and less than one day before it |
| Domain.StartOfDayProperties | src/lib/domain.ts:72-76 | startOfDay is idempotent and lies within one day below its input |
| Domain.StartOfDayUnique | src/lib/domain.ts:72-76 | the day boundary in the last day is the only one startOfDay can return |
| Domain.StartOfDayShift | src/lib/domain.ts:72-76 | shifting an instant by n whole days shifts its day start by n days |
| Domain.EndOfDay | src/lib/domain.ts:81-85 | the last millisecond of the same day: start of day + one day - 1 |
| Domain.DaysAgo | src/lib/domain.ts:90-94 | the start of the day n days before now, equal to today's start minus n days |
| Domain.SetHoursMinutesSameDay | src/components/logs/history/historyPage.tsx:168 | setting a valid hour and minute keeps the calendar day and zeroes the seconds and milliseconds |
| Domain.FormatRelativeTimeJustNow | src/lib/domain.ts:99-116 | "Just now" exactly when less than one minute has passed, including any future instant |
| Domain.FormatRelativeTimeDays | src/lib/domain.ts:102-108 | from one day on: "Yesterday" for exactly one whole day, else "N days ago" |
| Domain.FormatRelativeTimeHours | src/lib/domain.ts:103-111 | between one hour and one day: "1 hour ago" or "N hours ago", with N from 1 to 23 |
| Domain.FormatRelativeTimeMinutes | src/lib/domain.ts:104-114 | between one minute and one hour: "1 minute ago" or "N minutes ago", with N from 1 to 59 |
| Domain.CalculateProgress | src/lib/domain.ts:121-124 | 0 for a non-positive goal; never above 100; exactly 100 once the goal is met; otherwise the rounded percentage |
| Domain.RandomTagColor | src/lib/domain.ts:151-153 | for every random draw in [0, 1), one of the sixteen TAG_COLORS |
| Domain.ExtractUrls | src/lib/domain.ts:158-161 | every match starts with http:// or https:// (in any case), has at least one more character, holds no whitespace, and is a substring of the text |
| Domain.ExtractUrlsEmpty | src/lib/domain.ts:159-160 | the list is empty exactly when the pattern matches at no position of the text, the empty-array fallback |
| Domain.ExtractUrlsFirst | src/lib/domain.ts:159-160 | the first URL is the match at the leftmost position where the pattern matches, as long as the pattern matches there, and is followed by whitespace or the end |
| Domain.ExtractUrlsMaximal | src/lib/domain.ts:159 | every URL found stands in the text up to whitespace or the end of the text: `[^\s]+` is greedy |
| Domain.ExtractUrlsNone | src/lib/domain.ts:160 | a text in which no position starts with "http://" or "https://" yields the empty list |
| Domain.Truncate | src/lib/domain.ts:169-171 | a string no longer than the maximum is kept; a longer one becomes its first maxLength characters followed by "..." |
| Domain.GetDomain | src/lib/domain.ts:166-173 | the truncated URL when it does not parse; never longer than maxLength + 3 |
| Domain.GroupByDate | src/lib/domain.ts:178-189 | one group per distinct start of day, each holding exactly the logs of that day in input order, with the group sizes summing to the input length |
| Utils.DelayIndex | src/lib/utils.ts:23 | `Math.floor(Math.random() * 10)` lies in [0, 9] |
| Utils.GetDelayMessage | src/lib/utils.ts:22-25 | always one of the first ten of the eleven messages |
| Utils.LastDelayMessageByPositionOnly | src/lib/utils.ts:8-25 | the eleventh message is never picked by position, though its text repeats the ninth |
| Utils.DurationIsFormatElapsed | src/lib/utils.ts:27-35 | for a finish not before the start, `duration` is formatElapsed of the difference written as "HH:MM:SS" |
| Utils.DurationFields | src/lib/utils.ts:27-35 | the three fields add up to the whole seconds elapsed, minutes and seconds are two digits below 60, and hours are not reduced mod 24 |
| Utils.Initials | src/lib/utils.ts:37 | one entry per word, each the word's first character or empty |
| Utils.GetInitialsCommas | src/lib/utils.ts:36-38 | for a name without commas, the initials joined by "," hold exactly as many commas as the name has spaces |
| Records.FirstRunning | src/lib/actions/createLog.ts:21-26 | the first log of the user with no finish, or none exactly when the user has no running log |
| Records.AtMostOneRunningCount | src/lib/actions/createLog.ts:20-30 | under the single-running-log invariant each user has at most one running log |
| Records.Database.constructor | src/lib/actions/createLog.ts:20 | an empty store satisfies the class invariant `Valid()`: unique ids below the counter and at most one running log per user |
| Records.Database.FindRunning | src/lib/actions/createLog.ts:21-26 | the lookup loop returns the same position as FirstRunning |
| CreateLog.StoredDescription | src/lib/actions/createLog.ts:34 | an empty or absent description is stored as null, any other is stored as given |
| CreateLog.CreateLogOutcome | src/lib/actions/createLog.ts:12-57 | a failure leaves the store as it was; a success appends the returned log and touches nothing else |
| CreateLog.CreateLogErrors | src/lib/actions/createLog.ts:14-30 | without a user, or with a running log already, the call fails with its message and leaves the store as it was; it succeeds exactly otherwise |
| CreateLog.CreateLogSuccess | src/lib/actions/createLog.ts:32-44 | the new log has the caller's id, starts now, is unfinished, has null duration and the given tags or []; older logs are untouched; the user then has exactly one running log, and the invariants are kept |
| CreateLog.CreateLog | src/lib/actions/createLog.ts:12-57 | the result and the new store are those of CreateLogOutcome on the old store, and the database invariant `Valid()` is kept |
| UpdateLogStatus.Stopped | src/lib/actions/updateLogStatus.ts:25-35 | the stopped log finishes now with duration calculateDuration(start, now) ≥ 0, and no other field changes |
| UpdateLogStatus.StopOutcome | src/lib/actions/updateLogStatus.ts:7-46 | a failure leaves the store as it was; the tags and the number of logs never change |
| UpdateLogStatus.StopErrors | src/lib/actions/updateLogStatus.ts:8-23 | without a user, or with nothing running, the call fails with its message and the store is unchanged; it succeeds exactly otherwise |
| UpdateLogStatus.StopSuccess | src/lib/actions/updateLogStatus.ts:14-35 | only the first running log changes, to Stopped; under the invariant the user then has nothing running, and well-formedness is kept |
| UpdateLogStatus.UpdateLogStatus | src/lib/actions/updateLogStatus.ts:7-46 | the result and the new store are those of StopOutcome on the old store, and the database invariant `Valid()` is kept |
| CancelLog.RemoveAt | src/lib/actions/cancelLog.ts:23-27 | deleting one record keeps every other record, in order |
| CancelLog.CancelOutcome | src/lib/actions/cancelLog.ts:6-29 | a failure leaves the store as it was; a success returns a stored log and removes one log; the tags never change |
| CancelLog.CancelErrors | src/lib/actions/cancelLog.ts:7-21 | without a user, or with nothing running, the call fails with its message and the store is unchanged; it succeeds exactly otherwise |
| CancelLog.CancelSuccess | src/lib/actions/cancelLog.ts:23-28 | exactly the running log is removed and returned, the others stay in order; under the invariant nothing is running afterwards |
| CancelLog.CancelLog | src/lib/actions/cancelLog.ts:6-29 | the result and the new store are those of CancelOutcome on the old store, and the database invariant `Valid()` is kept |
| Tags.FindByName | src/lib/actions/tags.ts:36-41 | the first of the user's tags whose name equals the given name ignoring case, or none exactly when there is no such tag |
| Tags.FindById | src/lib/actions/tags.ts:65-66 | the position of the tag with the given id, or none exactly when there is none |
| Tags.ChosenColor | src/lib/actions/tags.ts:51 | the given colour when non-empty, else one of TAG_COLORS |
| Tags.CreateTagOutcome | src/lib/actions/tags.ts:22-57 | a failure leaves the store as it was; a success appends the returned tag and leaves the logs alone |
| Tags.CreateTagErrors | src/lib/actions/tags.ts:22-45 | fails without a user, with "Tag name cannot be empty" for a blank name, and with "Tag already exists" on a case-insensitive clash; it succeeds exactly otherwise |
| Tags.CreateTagSuccess | src/lib/actions/tags.ts:47-56 | the new tag has the trimmed non-empty name, the chosen colour and no logs; per-user case-insensitive name uniqueness and well-formedness are kept |
| Tags.CreateTagKeepsValid | src/lib/actions/tags.ts:22-57 | whatever createTag returns, unique ids and the single-running-log rule still hold afterwards |
| Tags.CreateTag | src/lib/actions/tags.ts:22-57 | the result and the new store are those of CreateTagOutcome on the old store, and the database invariant `Valid()` is kept |
| Tags.Updated | src/lib/actions/tags.ts:65-71 | the name changes (trimmed) only for a non-empty name and the colour only for a non-empty colour; id, owner and logs stay |
| Tags.UpdateTagOutcome | src/lib/actions/tags.ts:59-74 | a failure leaves the store as it was; the logs and the number of tags never change |
| Tags.UpdateTagEffect | src/lib/actions/tags.ts:59-74 | fails without a user or for an unknown id; otherwise only the tag with that id changes, to Updated |
| Tags.UpdateTagIgnoresNameRules | src/lib/actions/tags.ts:65-71 | with no emptiness or uniqueness check, renaming can duplicate another tag's name or leave an empty one |
| Tags.UpdateTag | src/lib/actions/tags.ts:59-74 | the result and the new store are those of UpdateTagOutcome on the old store, and the database invariant `Valid()` is kept |
| Tags.ClearTagged | src/lib/actions/tags.ts:83-92 | the updateMany: every log holding the id gets empty tagIds, every other log is kept |
| Tags.StripTagged | src/lib/actions/tags.ts:100-107 | the filter loop: every log holding the id keeps its other tag ids, every other log is kept |
| Tags.TaggedPositions | src/lib/actions/tags.ts:96-98 | the positions of exactly the logs holding the id, in increasing order |
| Tags.StripAt | src/lib/actions/tags.ts:100-107 | the loop filters the id out of the logs at the given positions and changes no other log |
| Tags.DeleteTagOutcome | src/lib/actions/tags.ts:76-112 | the tags change only on success |
| Tags.DeleteTagIntendedOutcome | src/lib/actions/tags.ts:96-111 | the corrected delete: the tags change only on success |
| Tags.DeleteTagAsWritten | src/lib/actions/tags.ts:76-112 | every log holding the tag ends with no tags at all; the others are untouched; the call succeeds exactly when the tag exists, and then that one tag is removed and the rest keep their order; on failure the tags are unchanged; the goals and the id counter never change |
| Tags.StripAfterClearIsNoOp | src/lib/actions/tags.ts:96-107 | after the updateMany, the per-log filter loop finds nothing left to change |
| Tags.DeleteTagLosesOtherTags | src/lib/actions/tags.ts:83-92 | a log tagged [0, 1] loses tag 1 too when tag 0 is deleted |
| Tags.DeleteTagIntendedKeepsOtherTags | src/lib/actions/tags.ts:96-107 | with the corrected delete, each log keeps every tag except the deleted one |
| Tags.DeleteTag | src/lib/actions/tags.ts:76-112 | the result and the new store are those of DeleteTagOutcome on the old store, and the database invariant `Valid()` is kept |
| Tags.GetOrCreateTagOutcome | src/lib/actions/tags.ts:114-136 | a failure leaves the store as it was |
| Tags.GetOrCreateTagEffect | src/lib/actions/tags.ts:114-136 | returns an existing case-insensitive match of the trimmed name without changing the store, and otherwise behaves as createTag |
| Tags.GetOrCreateTag | src/lib/actions/tags.ts:114-136 | the result and the new store are those of GetOrCreateTagOutcome on the old store, and the database invariant `Valid()` is kept |
| Sorting.SortBy | src/lib/actions/analytics.ts:90-92 | `Array.prototype.sort` with a key comparator: a permutation of its input, non-decreasing by the key |
| Sorting.SortByStable | src/lib/actions/analytics.ts:90-92 | the sort is stable: for every key, the elements with that key keep their input order |
| Sorting.WithKeyInsert | src/lib/actions/analytics.ts:90-92 | one insertion step puts the element before every other element with its key |
| Analytics.QueryLogs | src/lib/actions/analytics.ts:34-46 | the user's finished logs started on or after the start date, each as many times as in the store and no others, newest first |
| Analytics.WithTags | src/lib/actions/analytics.ts:40-42 | each log joined with exactly the tags whose ids it holds |
| Analytics.DailyBuckets | src/lib/actions/analytics.ts:56-68 | the dailyMap loop builds exactly the buckets of DailyTally |
| Analytics.DailyStatsFacts | src/lib/actions/analytics.ts:56-72 | one bucket per distinct day, strictly ascending; each has a count of at least 1 and the sum and count of its day's logs (null duration as 0); the bucket totals add up to the overall totals |
| Analytics.TagBuckets | src/lib/actions/analytics.ts:75-88 | the nested tagMap loop builds exactly the buckets of TagTally |
| Analytics.AddLogTags | src/lib/actions/analytics.ts:78-87 | the inner loop over one log's tags extends the tally by that log's (log, tag) pairs, in order |
| Analytics.AddTag | src/lib/actions/analytics.ts:79-86 | one inner step is AddItem: the tag's bucket gains the log's minutes and a count, or a new bucket is appended |
| Analytics.TagStatsFacts | src/lib/actions/analytics.ts:75-92 | tagStats is a permutation of the buckets in first-encounter order, sorted by total descending with ties kept in that order; each bucket sums its tag's logs |
| Analytics.TagContribution | src/lib/actions/analytics.ts:77-87 | a log adds its full duration and a count of 1 to each of its tags' buckets, and nothing to others |
| Analytics.AverageMinutesPerDay | src/lib/actions/analytics.ts:97-98 | 0 without active days, else the total divided by the days, rounded to nearest |
| Analytics.DailyGoal | src/lib/actions/analytics.ts:53 | the stored goal when present and non-zero, else 480 |
| Analytics.DatesOf | src/lib/actions/analytics.ts:120-121 | the day start of each bucket's date, one per bucket |
| Analytics.SortedDatesFacts | src/lib/actions/analytics.ts:120-122 | the sorted dates are exactly the bucket days, one per bucket, most recent first |
| Analytics.CountStreak | src/lib/actions/analytics.ts:124-145 | the loop over the descending dates computes a streak meeting IsStreakOf |
| Analytics.CalculateStreak | src/lib/actions/analytics.ts:116-148 | the streak is at most the bucket count; positive exactly when the latest day is today or yesterday; then the run of consecutive days back from it, up to the first gap |
| Analytics.GetAnalytics | src/lib/actions/analytics.ts:23-114 | fails without a user; otherwise every field of the response is its specification over the logs of the last `days` days, 30 when `days` is not passed |
| Analytics.AnalyticsTotals | src/lib/actions/analytics.ts:94-99 | the daily totals and counts add up to totalMinutes and totalLogs, and there are no buckets exactly when there are no logs |
| Analytics.GetDailyTotal | src/lib/actions/analytics.ts:150-154 | fails exactly without a user, with its message |
| Analytics.DailyTotalIsSameDay | src/lib/actions/analytics.ts:156-179 | the sum and count of the user's finished logs whose start lies in the day of the given date (or of now) |
| Analytics.UpdateDailyGoalRange | src/lib/actions/analytics.ts:182-196 | rejects a missing user and goals outside [0, 1440] leaving the store unchanged; otherwise sets this user's goal only |
| Analytics.GoalAsReported | src/lib/actions/analytics.ts:53 | after setting a goal, getAnalytics reports it, except that 0 reads back as 480 |
| Analytics.UpdateDailyGoalOutcome | src/lib/actions/analytics.ts:182-196 | a failure leaves the store as it was; the logs and tags never change |
| Analytics.UpdateDailyGoal | src/lib/actions/analytics.ts:182-196 | the result and the new store are those of UpdateDailyGoalOutcome on the old store, and the database invariant `Valid()` is kept |
| GetAllLogs.SkipOf | src/lib/actions/getAllLogs.ts:53 | the number of rows before the page, (page - 1) · limit |
| GetAllLogs.Ordered | src/lib/actions/getAllLogs.ts:34-52 | a permutation of the matching rows |
| GetAllLogs.OrderedSorted | src/lib/actions/getAllLogs.ts:47-52 | the matches are ordered by start time in the requested direction |
| GetAllLogs.SkipTake | src/lib/actions/getAllLogs.ts:53-54 | at most `take` rows, the consecutive rows after `skip`; empty past the end |
| GetAllLogs.CeilDiv | src/lib/actions/getAllLogs.ts:65 | `Math.ceil(total / limit)`: 0 exactly when the total is 0, and the least page count covering the total |
| GetAllLogs.GetAllLogs | src/lib/actions/getAllLogs.ts:21-70 | fails exactly without a user, with the wrapped message; a page holds at most `limit` rows and echoes the page asked for |
| GetAllLogs.OrderedMembers | src/lib/actions/getAllLogs.ts:34-45 | every ordered row is one of the user's stopped rows matching the search |
| GetAllLogs.GetAllLogsPage | src/lib/actions/getAllLogs.ts:34-65 | the page is the slice after (page-1)·limit of the ordered matches; every row returned belongs to the user, is stopped and matches the search; total counts all matches; totalPages is the ceiling |
| GetAllLogs.TotalIndependentOfPage | src/lib/actions/getAllLogs.ts:56-65 | total and totalPages do not depend on the page asked for |
| GetAllLogs.PagesCoverMatches | src/lib/actions/getAllLogs.ts:47-65 | the match at position (page - 1) * limit + i is at position i of that page, and the page is within totalPages |
| GetAllLogs.DefaultParams | src/lib/actions/getAllLogs.ts:21-26 | omitted parameters act as sort desc, page 1, limit 20, search "" |
| LogEdit.AtClock | src/components/logs/history/historyPage.tsx:165-169 | an empty field keeps the instant; a clock time keeps its calendar day with the hours and minutes entered and zero seconds |
| LogEdit.NullIfEmpty | src/components/logs/history/historyPage.tsx:186 | an empty description is sent as null, any other as given |
| LogEdit.RewriteTimes | src/components/logs/history/historyPage.tsx:165-181 | the finish is null exactly for an empty field and is built on the old finish's day or the start's; the start moves back one day exactly when it would follow the finish; it then lies on its day or the day before, and is not after a finish built on the same day |
| HistoryPage.ShownTotalPages | src/components/logs/history/historyPage.tsx:200 | the response's page count, or 1 while loading or when it is 0 |
| HistoryPage.PreviousPage | src/components/logs/history/historyPage.tsx:444 | one page back, never below 1 |
| HistoryPage.NextPage | src/components/logs/history/historyPage.tsx:453 | one page on, never past the page count |
| HistoryPage.PagingStaysInRange | src/components/logs/history/historyPage.tsx:444-454 | Previous and Next keep the page within [1, totalPages] and leave it unchanged exactly on the first and last page, where the buttons are disabled |
| HistoryPage.HistoryState.constructor | src/components/logs/history/historyPage.tsx:99-102 | newest first, page 1, no search |
| HistoryPage.HistoryState.Query | src/components/logs/history/historyPage.tsx:106-113 | the query asks getAllLogs for the current sort, page and search with limit 15 |
| HistoryPage.HistoryState.HandleSearch | src/components/logs/history/historyPage.tsx:143-147 | the search box becomes the search and the page returns to 1 |
| HistoryPage.HistoryState.ClearSearch | src/components/logs/history/historyPage.tsx:149-153 | both the box and the search are emptied and the page returns to 1 |
| HistoryPage.HistoryState.ToggleSort | src/components/logs/history/historyPage.tsx:246-249 | the direction flips and the page returns to 1 |
| HistoryPage.HistoryState.Previous | src/components/logs/history/historyPage.tsx:444 | the page becomes PreviousPage and stays at least 1 |
| HistoryPage.HistoryState.Next | src/components/logs/history/historyPage.tsx:453 | the page becomes NextPage and, from a valid page, stays within [1, totalPages] |
| HistoryPage.HandleUpdateSubmit | src/components/logs/history/historyPage.tsx:155-192 | nothing without a log being edited; otherwise its id, the category, the description (empty as null), the finish rebuilt at the entered clock time on the finish's (else the start's) day, and the start at its entered clock time, one day earlier when that is after the new finish |
| LogDisplay.AdoptedViewMode | src/components/logs/timer/logDisplay.tsx:92-97 | a stored mode is adopted exactly when it is "table" or "card" |
| LogDisplay.ViewModeRoundTrip | src/components/logs/timer/logDisplay.tsx:92-103 | a mode saved by handleViewModeChange is the one adopted on the next load |
| LogDisplay.DateLabel | src/components/logs/timer/logDisplay.tsx:182-192 | "Today" exactly on now's day, "Yesterday" exactly on the day before, and the locale date otherwise |
| LogDisplay.PreviousDayIsYesterday | src/components/logs/timer/logDisplay.tsx:237-241 | one day back from today's start reads "Yesterday", and one day on from there reads "Today" |
| LogDisplay.TagIdsOf | src/components/logs/timer/logDisplay.tsx:170 | the edited log's tag ids, in order |
| LogDisplay.DisplayState.constructor | src/components/logs/timer/logDisplay.tsx:83-85 | newest first, the start of today, table view |
| LogDisplay.DisplayState.LoadViewMode | src/components/logs/timer/logDisplay.tsx:92-97 | the view mode becomes the saved one when valid, else stays |
| LogDisplay.DisplayState.ChangeViewMode | src/components/logs/timer/logDisplay.tsx:100-103 | the mode is shown and the string stored reads back as that mode |
| LogDisplay.DisplayState.ToggleSort | src/components/logs/timer/logDisplay.tsx:205 | the sort direction flips |
| LogDisplay.DisplayState.PreviousDay | src/components/logs/timer/logDisplay.tsx:237-241 | the date moves back exactly one day, and so does its day start |
| LogDisplay.DisplayState.NextDay | src/components/logs/timer/logDisplay.tsx:276-280 | the date moves on exactly one day, and so does its day start |
| LogDisplay.DisplayState.SelectDate | src/components/logs/timer/logDisplay.tsx:261-267 | a picked day becomes its start of day; clearing the pick sets the current instant, not its start of day |
| LogDisplay.HandleUpdateSubmit | src/components/logs/timer/logDisplay.tsx:138-174 | nothing without a log being edited; otherwise its id, the description (empty as null), the finish rebuilt at the entered clock time on the finish's (else the start's) day, the start at its entered clock time, one day earlier when that is after the new finish, and the log's own tag ids unchanged |
| CreateLogs.Toggle | src/components/logs/createLogs.tsx:131-137 | an absent id is appended at the end; a present one is removed |
| CreateLogs.Without | src/components/logs/createLogs.tsx:134 | exactly the ids other than the given one remain |
| CreateLogs.ToggleTwice | src/components/logs/createLogs.tsx:131-137 | toggling an id twice restores the selection's membership, and the selection itself when the id was absent |
| CreateLogs.CreateArguments | src/components/logs/createLogs.tsx:110 | the trimmed description or undefined when blank, and the tag ids only when some are selected |
| CreateLogs.TimerWidget.constructor | src/components/logs/createLogs.tsx:33-43 | the state at mount: nothing running, everything cleared |
| CreateLogs.TimerWidget.Start | src/components/logs/createLogs.tsx:45-58 | no effect while running; otherwise running from the given reading |
| CreateLogs.TimerWidget.Reset | src/components/logs/createLogs.tsx:70-82 | every field the reset touches is at its cleared value (`Cleared()`: both elapsed readings 0, stopped, no start reading, description, selection and new-tag name empty, both input flags off); `initialized` is kept |
| CreateLogs.TimerWidget.Stop | src/components/logs/createLogs.tsx:60-68 | true exactly when running, and then the whole widget is `Cleared()` with `initialized` kept; otherwise nothing changes |
| CreateLogs.TimerWidget.HandleUpdateLog | src/components/logs/createLogs.tsx:113-117 | handleUpdate is called exactly when the widget was running; then the widget is `Cleared()` with `initialized` kept, otherwise nothing changes |
| CreateLogs.TimerWidget.HandleCreateLog | src/components/logs/createLogs.tsx:108-111 | the widget runs, from the reading `now` when it was idle and with its old start reading when it was running, and handleCreate gets the CreateArguments of the description and selection |
| CreateLogs.TimerWidget.ClickChip | src/components/logs/createLogs.tsx:174 | chips cannot be toggled while running; otherwise the selection is toggled |
| CreateLogs.TimerWidget.HandleAddTag | src/components/logs/createLogs.tsx:119-129 | blank names are ignored; the trimmed name is requested; on success the new id is appended and the input cleared and hidden; a failure changes nothing |
| CreateLogs.TimerWidget.Initialize | src/components/logs/createLogs.tsx:90-106 | once, from the running log: the base elapsed on the wall clock, a non-empty description, non-empty tags, and for an unfinished log a start at the `performance.now()` reading unless already running; the elapsed display and the input fields stay; the running/start-reading invariant is kept |
| RecentActivities.RelativeTime | src/components/logs/recentActivities.tsx:66-83 | "Just now" for less than a minute, including the future |
| RecentActivities.RelativeTimeAgrees | src/components/logs/recentActivities.tsx:66-83 | the card's copy agrees with the shared formatRelativeTime on every input |
| RecentActivities.RelativeTimeLabels | src/components/logs/recentActivities.tsx:73-82 | "Just now" exactly under a minute; "Yesterday" at exactly one whole day, "N days ago" from two; singular hour and minute forms only at 1 |
| RecentActivities.ParseUrlsFromText | src/components/logs/recentActivities.tsx:13-17 | the text comes back unchanged, with URLs that are substrings of it |
| RecentActivities.CardDomain | src/components/logs/recentActivities.tsx:20-27 | an unparsable URL longer than 25 characters is cut to 25 plus "...", a shorter one is kept; never longer than 28 |
| RecentActivities.CardDomainAgrees | src/components/logs/recentActivities.tsx:20-27 | the card's getDomain is the shared getDomain with maximum length 25 |
| Middleware.Decide | src/middleware.ts:9-22 | a logged-in user on an auth page goes to "/"; a logged-out user on any path starting "/" goes to "/signin"; everything else passes |
| Middleware.AuthPagesAreProtected | src/middleware.ts:11-12 | every auth page also counts as a protected page |
| Middleware.Handle | src/middleware.ts:5-28 | a request goes to "/signin" exactly when logged out on a matched path, to "/" exactly when logged in on a matched auth page, and passes otherwise |
| Middleware.MatchedFamilies | src/middleware.ts:24-28 | the matcher runs exactly on paths starting "/" outside "/api", "/_next/static", "/_next/image", "/signin" and "*.png" |
| Middleware.ExcludedPathsPass | src/middleware.ts:24-28 | those excluded paths pass through, logged in or not, under both the written and the corrected decision |
| Middleware.SignupRedirectsToSignin | src/middleware.ts:17-19 | a logged-out visit to "/signup" is redirected to "/signin", while "/signin" itself always passes |
| Middleware.DecideIntended | src/middleware.ts:11-21 | the corrected decision lets logged-out users reach the auth pages and still protects every other page |
| Middleware.HandleIntended | src/middleware.ts:5-28 | with the corrected decision: "/signin" exactly when logged out on a matched non-auth path, "/" exactly when logged in on a matched auth page, and passes otherwise |
| Middleware.IntendedSignupReachable | src/middleware.ts:24-28 | with the corrected decision, a logged-out user reaches "/signup", a logged-in one is sent home from it, and other matched pages still need a session |

## Left out

- Authentication, bcrypt hashing, Prisma and MongoDB: the session is a parameter and each query is a filter over the in-memory store. `auth()`, `signUp.ts` and the sign-up form schema are not part of this model.
- Concurrency: each server action is atomic. The check-then-create race in `createLog` is not modelled.
- Rendering, toasts, dialogs and react-query caching and invalidation. The analytics and daily-summary components only do presentation arithmetic and are not part of this model.
- The single-query files `getRunningLog.ts`, `getFinishedLogs.ts`, `getRecentLogs.ts`, `deleteLog.ts`, `updateLog.ts`, `get-logs.ts` and `create-log.ts` are not part of this model: they are plain reads and writes with no logic of their own.
- `getTags`: a name-ordered read of the user's tags with no logic to state.
- Time zones, daylight saving and the locale: days are fixed 86 400 000 ms blocks. So calculateStreak's `setDate(-1)` and its `−24h` step always agree. `toLocaleDateString`, `toDateString`, `toISOString` (a day-start integer is the map key) and the locale date of formatDateDisplay's third branch are not modelled.
- The animation-frame ticker of the timer widget (`requestAnimationFrame`, the `elapsed` it writes). `performance.now()` readings are integer parameters.
- `Math.random()` is a real parameter in [0, 1) for getRandomTagColor and getDelayMessage.
- `new URL(url).hostname` is a parameter: `None` for a URL that does not parse, so the catch branch of getDomain is modelled exactly.
- Unicode: whitespace in trim and in the URL pattern `[^\s]` is ASCII whitespace, and "insensitive" comparison is ASCII lower-casing.
- The history page's own getDomain and URL helpers are presentation and are not modelled.
- Domain.CalculateProgress: rounds the exact ratio `current·100/goal`, while the source rounds the floating-point product `(current/goal)*100`, which can differ when that product lands next to .5.
- LogEdit.AtClock: the entry `"HH:MM".split(':').map(Number)` is an optional pair of integers. A malformed or out-of-range entry (NaN, hour 25) is not modelled and is only constrained as `IsClockTime` when valid.
- GetAllLogs.GetAllLogs: requires page ≥ 1 and limit ≥ 1. A page of 0 or less (a negative skip) and a limit of 0 (an infinite page count) are query errors the model does not describe.
- GetAllLogs: the history rows are their own type (`HistoryLog`, with `category` and `status`). Those columns belong to the legacy record shape and are not in the log store of createLog. Ties in the start-time order are resolved by a stable sort, which the database does not promise.
- Tags.UpdateTag and Tags.DeleteTag: like the source, neither checks that the tag belongs to the caller. UpdateTag can also give a tag an empty or duplicate name (Tags.UpdateTagIgnoresNameRules).
- React state batching and stale closures: setters take effect in the order they are called, and each handler sees the state current at its call.

## Findings

| source | as written | input that shows it | evidently intended | confidence | as-written member | corrected member |
|---|---|---|---|---|---|---|
| src/lib/actions/tags.ts:83-92 | `updateMany` sets the `tagIds` of every log holding the tag to `[]`, so the per-log filter afterwards finds nothing and the logs lose all their other tags too | a log tagged [0, 1]; delete tag 0 | only the deleted tag's id is removed from each log (the filter loop at lines 96-107) | high, not executed | Tags.DeleteTagLosesOtherTags | Tags.DeleteTagIntendedKeepsOtherTags |
| src/middleware.ts:17-19, 24-28 | the matcher excludes "signin" but not "signup", and every logged-out path starting "/" is redirected, so the sign-up page is unreachable without a session | a logged-out request for "/signup" | logged-out users may open the auth pages | high, not executed | Middleware.SignupRedirectsToSignin | Middleware.IntendedSignupReachable |
