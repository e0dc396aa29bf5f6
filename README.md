# blades-app core logic in Dafny

A rowing team's web app. This project models the logic that sits inside its
React components, stated as Dafny functions, methods and classes with their
proofs:

- **The weekly busy-time calendar** (`Calendar.jsx`). It covers:
  - Monday-first week arithmetic;
  - the "hh:mm" time fields of the event form;
  - the three-clause week filter and the all-day and timed columns;
  - the greedy lane layout of a day's overlapping events;
  - the line-oriented iCalendar reader (`BEGIN:VEVENT` blocks with `SUMMARY`, `DTSTART` and `DTEND`);
  - the de-duplicating file import and the plain paste import;
  - the optimistic add, update and delete, and the busy-event refresh;
  - drag-to-create.
- **The workout statistics.** `MyStats` aggregates a user's workouts into per-sport, per-intensity and per-week minute buckets. `TeamStats` aggregates them per member and over the last five weeks. `TeamPastWorkouts` holds the row labels, the newest-first order and the header totals.
- **Small utilities:**
  - avatar initials (`TopBar.jsx`, and its copy in `Workouts.jsx`);
  - the identity provider's error messages (`Auth.jsx` `mapError` and the sign-on form's own chain);
  - the sign-on form's validators, submit gate and modes;
  - the "hh:mm" duration field and Save button of the workout form;
  - the optimistic squad ("role") switch with revert.

Conventions of the model:

- **Instants:** integer milliseconds since the epoch (`Time`).
- **Local time:** a fixed UTC offset (`Zone`), with no daylight-saving changes.
- **JavaScript `Date`s:** values that may be invalid (`At(ms)` or `InvalidDate`). Comparisons with an invalid date are false, as with `NaN`.
- **`Number(s)`:** `Numbers.ToNumber`, `None` being `NaN`.
- **A workout list that may hold `null`s:** `seq<Option<Workout>>`.
- **Inputs as parameters.** The clock (`now`), the platform's date parser (`parse`), fresh ids (`newId`, `tempId`) and every server answer are parameters. A handler that awaits the server is split in two: a method for the part before the request, and one taking the outcome.

Where code and comment or documentation disagree, the model follows the code:

- A date-only `DTSTART` without `DTEND` gives a one-hour event that is not all-day.
- The paste import does no de-duplication.
- `laneCount` is the lane total of the whole day.
- `normalizeIntensity` does not trim.
- A drag can reach minute 1440, which the form writes as "24:00", the next midnight.
- The sign-on form's own chain checks bad credentials before "email-already-in-use", whereas `mapError` checks the e-mail first. The difference never shows: the e-mail helpers rethrow the provider's error as `new Error(mapError(code))`, which has no `code`, so the form's chain always reads "" and shows "Authentication failed." (`AuthErrors.FormMessageOfRethrown`). In this program the code the form tests is never a provider code.
- The file import's de-duplication writes each event's start with `toISOString()`, which throws for an invalid start inside the state updater. The page has no error boundary, so such an import crashes it. That happens for a file with an unreadable `DTSTART`, and for any file import after a paste import that added such an event.
- `handleUpdate` and `handleDelete` never look at `res.ok`. An answer with an error status counts as success: the optimistic change stays and no message is shown. Only a request that does not reach the server sets "Failed to update" or "Failed to delete" and starts a refresh (`CalendarPage.Calendar.RequestFailed`). `handleAdd` and the refresh do check the status.
- A busy record whose `start` is missing and whose `date` is `null` is placed at the epoch, since `new Date(null)` is 0. A missing or empty `date` gives an invalid date instead (`CalendarEvents.BusyEvent`).

## Model

Every method of `CalendarPage.Calendar` and `SignOn.SignOnPage` names the fields it may change in its `modifies` clause, so every other field keeps its value.

| member | source | states |
|---|---|---|
| CalendarDates.StartOfWeekProps | src/pages/components/Calendar.jsx:39-45 | `startOfWeek(t)` is a local midnight on a Monday, no later than `t`, less than a week and at most 6 days before it; a Sunday goes back 6 days |
| CalendarDates.StartOfWeekUnique | src/pages/components/Calendar.jsx:39-45 | any Monday midnight `m` with `m <= t < m + 7 days` is `startOfWeek(t)` |
| CalendarDates.AddWeeksKeepsWeekStart | src/pages/components/Calendar.jsx:422-431 | stepping a week start by whole weeks (`prevWeek`/`nextWeek`) gives a week start again |
| CalendarDates.ParseMinsToTime | src/pages/components/Calendar.jsx:61-82 | `parseTimeToDate(base, minsToTime(m))` is local midnight of `base` plus `m` minutes, for every `m` |
| CalendarDates.FormatInputTimeIsMinsToTime | src/pages/components/Calendar.jsx:70-82 | `formatInputTime(d)` writes what `minsToTime` writes for the minute of the day of `d` |
| CalendarDates.FormatParseRoundTrip | src/pages/components/Calendar.jsx:61-74 | for `m < 1440`, formatting the parsed time gives back the text `minsToTime(m)` |
| CalendarDates.ParseFormatRoundTrip | src/pages/components/Calendar.jsx:61-74 | re-reading `formatInputTime(t)` on the day of `t` gives `t` truncated to its minute |
| CalendarDates.FixEnd | src/pages/components/Calendar.jsx:251-254 | the end is after the start: a later end is kept, any other becomes start + 30 minutes |
| CalendarDates.FormTimes | src/pages/components/Calendar.jsx:246-254 | the form's event starts before it ends; all-day is the day plus one hour; otherwise the parsed start and the fixed end |
| CalendarDates.RoundMinutes | src/pages/components/Calendar.jsx:75-77 | `roundMinutes(num/den)` is a multiple of 15 nearest to the quotient, a tie going up |
| CalendarDates.RoundMinutesUnique | src/pages/components/Calendar.jsx:75-77 | the rounding bounds determine a single multiple of 15 |
| CalendarDates.PixelToMinutes | src/pages/components/Calendar.jsx:532-536 | the minute under the cursor lies in [0, 1440] and is a multiple of 15: the clamped offset over 12 pixels, rounded, times 15 |
| CalendarDates.RoundPixels | src/pages/components/Calendar.jsx:532-536 | at 48 pixels per hour, `roundMinutes(c * 1440 / 1152)` equals `(c + 6) / 12 * 15` in integers |
| CalendarDates.DragBottomIsNextMidnight | src/pages/components/Calendar.jsx:535-536 | the bottom pixels give minute 1440, written "24:00", which the form reads as the next day's midnight |
| CalendarEvents.InWeekIff | src/pages/components/Calendar.jsx:439-448 | for a valid event, the three-clause filter holds exactly when the event intersects [weekStart, weekStart + 7 days) in the stated way |
| CalendarEvents.InWeekInvalidStart | src/pages/components/Calendar.jsx:439-448 | an event with an invalid start is in the week only through its end clause |
| CalendarEvents.WeekEvents | src/pages/components/Calendar.jsx:439-448 | the week's events are exactly the events passing the filter |
| CalendarEvents.FindDayFrom | src/pages/components/Calendar.jsx:451-459 | the search returns the first day index from `i` whose date is the event's start day, or none |
| CalendarEvents.FindDayIff | src/pages/components/Calendar.jsx:451-459 | an event's day column is its local day counted from the week start, when that is in 0..6 |
| CalendarEvents.AllDayByDay | src/pages/components/Calendar.jsx:451-459 | the all-day table has seven columns |
| CalendarEvents.AllDayByDayIff | src/pages/components/Calendar.jsx:451-459 | an event is listed under day `i` exactly when it is an all-day event of the week whose start is on day `i` |
| CalendarEvents.TimedEvents | src/pages/components/Calendar.jsx:461-464 | the timed events are exactly the week's events that are not all-day |
| CalendarEvents.RenameId | src/pages/components/Calendar.jsx:292-296 | the rename keeps the list's length and every event with another id, and gives each event with the old id the new id, its other fields kept |
| CalendarEvents.RemoveId | src/pages/components/Calendar.jsx:297-300 | an event is in the result exactly when it is in the list and lacks the id, and the result keeps the list's order (a subsequence) |
| CalendarEvents.RemoveAbsentId | src/pages/components/Calendar.jsx:350-362 | removing an id not in the list leaves the list unchanged |
| CalendarEvents.AddInsertsOne | src/pages/components/Calendar.jsx:266-282 | the optimistic insert puts exactly one event under the fresh temporary id |
| CalendarEvents.AddThenRename | src/pages/components/Calendar.jsx:292-296 | a saved id renames only the inserted event, wherever later edits left it |
| CalendarEvents.AddThenRollback | src/pages/components/Calendar.jsx:297-300 | a failed save restores the list, with later edits kept, as if the insert had not happened |
| CalendarEvents.UpdateById | src/pages/components/Calendar.jsx:327-336 | the optimistic update keeps ids and order, replaces title, dates, notes and all-day flag of the events with the id, and leaves the others alone |
| CalendarEvents.BusyEvent | src/pages/components/Calendar.jsx:214-223 | a record's event is a busy event of the user. Its id is `_id`, or `id` without one. Its title is the record's, or "Busy" for an empty one. Its start is read from `start`, and its end from `end`, falling back to the start. A missing `start` falls back to `date`, where `null` gives the epoch and a missing `date` an invalid date. Notes and the all-day flag are copied |
| CalendarEvents.MapBusy | src/pages/components/Calendar.jsx:214-223 | record `i` becomes event `i`, as `BusyEvent` says; each is a busy event owned by the user with a non-empty title; a missing answer gives none |
| CalendarEvents.MergeBusyProps | src/pages/components/Calendar.jsx:224-227 | the refresh keeps the non-busy events in order, replaces the busy ones by the new ones, and is idempotent |
| CalendarEvents.MergeImported | src/pages/components/Calendar.jsx:397-413 | the import succeeds exactly when every start is valid; the old list is kept as a prefix, and an imported event is appended exactly when its (start, title) key is new. The appended part is exactly the imported events with new keys, in the file's order |
| CalendarEvents.MergeImportedTwice | src/pages/components/Calendar.jsx:397-413 | importing the same events a second time adds nothing |
| CalendarIcs.StripZ | src/pages/components/Calendar.jsx:118 | the value with one trailing "Z" removed, or unchanged |
| CalendarIcs.DateOnlyIsMidnight | src/pages/components/Calendar.jsx:112-117 | an eight-character value is `new Date(y, m - 1, d)` of its three parts, and a local midnight when valid |
| CalendarIcs.DateOnlyNamesDate | src/pages/components/Calendar.jsx:112-117 | when `Number` reads the parts as y, m in 1..12 and d, the value is local midnight of the Gregorian date y-m-d (a year below 100 read as 1900 + y), and that is its local day |
| CalendarIcs.TrailingZIgnored | src/pages/components/Calendar.jsx:118-125 | a trailing "Z" does not change a date-time value |
| CalendarIcs.MissingTimeIsZero | src/pages/components/Calendar.jsx:118-125 | a value without its time part is midnight UTC of its date |
| CalendarIcs.Emit | src/pages/components/Calendar.jsx:91-101 | a closed block gives an imported, timed event; the title defaults to "Untitled" and the end to start + 1 hour |
| CalendarIcs.IcsRunEvents | src/pages/components/Calendar.jsx:84-109 | reading lines only appends events, and every event read is imported, timed and titled |
| CalendarIcs.OutsideLinesIgnored | src/pages/components/Calendar.jsx:88-107 | lines outside a block change nothing until the next `BEGIN:VEVENT` |
| CalendarIcs.ReadBlock | src/pages/components/Calendar.jsx:88-106 | a block adds the event its body describes when the body has a start, else nothing |
| CalendarIcs.BlockWithoutStartDropped | src/pages/components/Calendar.jsx:91-101 | a block without a `DTSTART` line is dropped |
| CalendarIcs.StartOnlyBlock | src/pages/components/Calendar.jsx:93-99 | a block with only `DTSTART` gives one untitled one-hour event that is not all-day |
| CalendarIcs.ParseIcs | src/pages/components/Calendar.jsx:84-109 | the loop over the lines yields the events of the line-by-line reader |
| CalendarIcs.ReadLine | src/pages/components/Calendar.jsx:88-106 | one loop body is one step of the reader |
| CalendarLayout.EventsForDayProps | src/pages/components/Calendar.jsx:467-470 | the day's events are exactly the timed events starting that day, sorted by start |
| CalendarLayout.FirstFit | src/pages/components/Calendar.jsx:471-482 | the chosen lane is the first whose last event ends no later than the new start; none when no lane fits |
| CalendarLayout.LanesOrdered | src/pages/components/Calendar.jsx:471-482 | within every lane each event ends no later than the next starts |
| CalendarLayout.LanesKeepEvents | src/pages/components/Calendar.jsx:471-482 | every event is placed in exactly one lane |
| CalendarLayout.LaneCountBound | src/pages/components/Calendar.jsx:471-482 | there are never more lanes than events, and at least one when there are events |
| CalendarLayout.LayoutProps | src/pages/components/Calendar.jsx:467-494 | the layout lists each of the day's timed events once, with `0 <= laneIdx < laneCount` and `laneCount` the day's lane total |
| CalendarLayout.LayoutDayEvents | src/pages/components/Calendar.jsx:467-494 | the nested loops compute the greedy layout |
| CalendarLayout.PlaceEvent | src/pages/components/Calendar.jsx:473-481 | the inner loop places the event in the first fitting lane or opens a new one |
| CalendarLayout.ListLanes | src/pages/components/Calendar.jsx:483-492 | the listing gives each lane's events with their lane index and the lane total |
| CalendarPage.Calendar.constructor | src/pages/components/Calendar.jsx:133-153 | the page opens on today's day and week with an empty list, a reset form, no drag and not crashed |
| CalendarPage.Calendar.ResetForm | src/pages/components/Calendar.jsx:235-242 | the form fields go back to their defaults, nothing else changes |
| CalendarPage.Calendar.PrevWeek | src/pages/components/Calendar.jsx:422-426 | the week start moves back 7 days, stays a week start, and is also the selected day |
| CalendarPage.Calendar.NextWeek | src/pages/components/Calendar.jsx:427-431 | the week start moves forward 7 days, stays a week start, and is also the selected day |
| CalendarPage.Calendar.GoToday | src/pages/components/Calendar.jsx:432-436 | the selected day is today and the shown week holds `now` |
| CalendarPage.Calendar.HandleAdd | src/pages/components/Calendar.jsx:245-282 | one event with the form's times and the temporary id is appended, its start before its end, and the form is reset and closed |
| CalendarPage.Calendar.AddSaved | src/pages/components/Calendar.jsx:292-296 | a returned id renames the temporary event; without one the list stays |
| CalendarPage.Calendar.AddFailed | src/pages/components/Calendar.jsx:297-300 | the temporary event is removed and the error is set |
| CalendarPage.Calendar.HandleUpdate | src/pages/components/Calendar.jsx:304-336 | without an edited event nothing changes; otherwise the events with its id take the form's values, the form is reset and closed, and the id is sent. The answer's status is never read |
| CalendarPage.Calendar.ApplyEdit | src/pages/components/Calendar.jsx:327-336 | the edited event takes the form's values, "Busy" for an empty title, and the form closes |
| CalendarPage.Calendar.RequestFailed | src/pages/components/Calendar.jsx:343-346 | an update or delete request that does not reach the server sets the message and, for a signed-in user, starts a refresh that clears it; an error status does not lead here |
| CalendarPage.Calendar.HandleDelete | src/pages/components/Calendar.jsx:350-362 | the events with the id go at once; the server is asked only when the first event with the id is a busy event; an open edit of that event is reset, and otherwise the form is kept |
| CalendarPage.Calendar.HandleEdit | src/pages/components/Calendar.jsx:365-374 | the form opens on the event's day with its title, notes, flag and times |
| CalendarPage.Calendar.BeginRefresh | src/pages/components/Calendar.jsx:204-213 | a signed-in user's refresh clears the error and marks loading; without a user nothing changes |
| CalendarPage.Calendar.RefreshDone | src/pages/components/Calendar.jsx:214-233 | a successful answer replaces the busy events by the mapped ones; a failure keeps the list and sets the error; loading ends |
| CalendarPage.Calendar.HandleIcsFile | src/pages/components/Calendar.jsx:397-413 | the file's events with new keys are appended; no file or no events changes nothing; an invalid start in the list or the file keeps the list and crashes the page |
| CalendarPage.Calendar.ImportRawIcs | src/pages/components/Calendar.jsx:414-419 | every event read from the pasted text is appended, without de-duplication |
| CalendarPage.Calendar.BeginDrag | src/pages/components/Calendar.jsx:531-541 | a drag starts on the day at the minute under the cursor, 30 minutes long |
| CalendarPage.Calendar.ColumnMouseDown | src/pages/components/Calendar.jsx:817-820 | a press in a column starts a 30-minute drag at the minute under the cursor unless it is on an event, which changes nothing |
| CalendarPage.Calendar.UpdateDrag | src/pages/components/Calendar.jsx:543-561 | moving above the start swaps the bounds (the old start becomes the end); otherwise the end follows, at least 15 minutes after the start; multiples of 15 are kept |
| CalendarPage.Calendar.FinishDrag | src/pages/components/Calendar.jsx:563-583 | a selection opens the form for a "Busy" event on the dragged day with the selected times, and all drag fields are cleared |
| CalendarPage.DragSelectionTimes | src/pages/components/Calendar.jsx:563-583 | the times written by a drag are read back by the form as exactly the selected minutes of the day |
| MyStats.NormalizeIntensity | src/pages/components/myWorkoutComponents/MyStats.jsx:34-42 | the result is one of the five canonical names or null, and null for a falsy input |
| MyStats.CanonicalFixed | src/pages/components/myWorkoutComponents/MyStats.jsx:36-41 | each canonical name normalises to itself |
| MyStats.NormalizeCaseInsensitive | src/pages/components/myWorkoutComponents/MyStats.jsx:36-41 | any spelling that lower-cases to a canonical name normalises to that name |
| MyStats.NormalizeNoTrim | src/pages/components/myWorkoutComponents/MyStats.jsx:36-40 | a leading space makes the value unrecognised: there is no trimming |
| MyStats.TitleCaseLower | src/pages/components/myWorkoutComponents/MyStats.jsx:36-40 | title-casing keeps the lower case of the text |
| MyStats.WeekStartIsCalendarWeek | src/pages/components/myWorkoutComponents/MyStats.jsx:68-74 | this week starts at the calendar's `startOfWeek(now)` |
| MyStats.Aggregate | src/pages/components/myWorkoutComponents/MyStats.jsx:54-152 | the one-pass aggregation equals the summary defined by sums over the workouts |
| MyStats.Pass | src/pages/components/myWorkoutComponents/MyStats.jsx:56-104 | after the `forEach` every bucket and accumulator is its sum over the workouts, and the dates are those of the counted workouts |
| MyStats.Visit | src/pages/components/myWorkoutComponents/MyStats.jsx:76-104 | one callback extends the partial sums by one workout |
| MyStats.TallyDone | src/pages/components/myWorkoutComponents/MyStats.jsx:76-104 | the partial sums over all workouts are the summary's buckets |
| MyStats.CellsOf | src/pages/components/myWorkoutComponents/MyStats.jsx:85-99 | a counted workout adds its minutes to its sport's, its intensity's and, when dated this week, this week's bucket, and to no other |
| MyStats.SportBucketsTotal | src/pages/components/myWorkoutComponents/MyStats.jsx:85-93 | the sport buckets plus the minutes of unknown sports make up `totalMinutes` |
| MyStats.IntensityBucketsTotal | src/pages/components/myWorkoutComponents/MyStats.jsx:94-99 | the intensity buckets plus the minutes of unknown intensities make up `totalMinutes` |
| MyStats.WeekWithinOverall | src/pages/components/myWorkoutComponents/MyStats.jsx:94-98 | this week's minutes at an intensity are between 0 and all minutes at it |
| MyStats.SportRowWithin | src/pages/components/myWorkoutComponents/MyStats.jsx:85-99 | a sport's intensity minutes add up to at most that sport's minutes |
| MyStats.TotalNonNegative | src/pages/components/myWorkoutComponents/MyStats.jsx:76-104 | the total is never negative |
| MyStats.NothingCounted | src/pages/components/myWorkoutComponents/MyStats.jsx:106-112 | with no counted minutes, first and last are `now`, the total is 0 and the span is one week |
| MyStats.NoWorkouts | src/pages/components/myWorkoutComponents/MyStats.jsx:54-152 | an empty or missing list gives zero buckets, totals and count |
| MyStats.FirstLastBound | src/pages/components/myWorkoutComponents/MyStats.jsx:106-112 | every counted workout's date lies between the first and the last date |
| MyStats.FirstLastAttained | src/pages/components/myWorkoutComponents/MyStats.jsx:106-112 | the first and last dates are dates of counted workouts |
| MyStats.SpanAtLeastOneWeek | src/pages/components/myWorkoutComponents/MyStats.jsx:109-149 | the span is at least one week, so the weekly average is at most the total hours |
| MyStats.HoursHundredths | src/pages/components/teamWorkoutComponents/TeamStats.jsx:124 | `+(m/60).toFixed(2)` in hundredths is within half a hundredth of `m/60` |
| MyStats.StatsPermutation | src/pages/components/myWorkoutComponents/MyStats.jsx:76-112 | the summary does not depend on the order of the workouts |
| MyStats.ZeroMinutesRecord | src/pages/components/myWorkoutComponents/MyStats.jsx:76-104 | a workout adding no minutes changes only the distance and the count; a null or undated one adds no distance |
| TeamStats.FindLower | src/pages/components/teamWorkoutComponents/TeamStats.jsx:60 | the intensity found matches case-insensitively, and none means no name matches |
| TeamStats.FirstSeenProps | src/pages/components/teamWorkoutComponents/TeamStats.jsx:53-57 | the member keys are distinct and are exactly the labels of the non-null entries |
| TeamStats.JoinMember | src/pages/components/teamWorkoutComponents/TeamStats.jsx:54-57 | the entry's member gets zero rows when new, and the keys stay the labels seen so far |
| TeamStats.CountEntry | src/pages/components/teamWorkoutComponents/TeamStats.jsx:58-68 | the member's rows grow by the entry's cells |
| TeamStats.CountMember | src/pages/components/teamWorkoutComponents/TeamStats.jsx:62-68 | positive minutes and one workout are added to the member, and positive distance |
| TeamStats.CountIntensity | src/pages/components/teamWorkoutComponents/TeamStats.jsx:60-65 | positive minutes go to the member's matched intensity bucket |
| TeamStats.CountSport | src/pages/components/teamWorkoutComponents/TeamStats.jsx:61-66 | positive minutes go to the member's sport bucket, "OTHER" for unknown sports |
| TeamStats.Visit | src/pages/components/teamWorkoutComponents/TeamStats.jsx:52-73 | one callback extends the per-member sums by one entry |
| TeamStats.SkipNull | src/pages/components/teamWorkoutComponents/TeamStats.jsx:53 | a null entry changes nothing |
| TeamStats.Weekly | src/pages/components/teamWorkoutComponents/TeamStats.jsx:106-128 | the weekly loop computes the five-week series |
| TeamStats.WeeksOf | src/pages/components/teamWorkoutComponents/TeamStats.jsx:112-128 | the loop over the five weeks computes each row from its start |
| TeamStats.WeekEntry | src/pages/components/teamWorkoutComponents/TeamStats.jsx:119-126 | an entry adds its hours only to its own member's column, only when in the week with positive minutes |
| TeamStats.WeekHours | src/pages/components/teamWorkoutComponents/TeamStats.jsx:117-126 | a week's row is the sum of the entries' cells per member |
| TeamStats.Aggregate | src/pages/components/teamWorkoutComponents/TeamStats.jsx:46-142 | the `useMemo` computation equals the summary defined by sums over the entries |
| TeamStats.Divisor | src/pages/components/teamWorkoutComponents/TeamStats.jsx:79 | `members.length \|\| 1` is at least 1 |
| TeamStatsFacts.SortedLabels | src/pages/components/teamWorkoutComponents/TeamStats.jsx:75 | the sorted keys are sorted, distinct, and exactly the labels of the non-null entries |
| TeamStatsFacts.MembersAreLabels | src/pages/components/teamWorkoutComponents/TeamStats.jsx:53-75 | `members` is sorted and distinct, holds every non-null entry's label (zero duration included), and is the key set of `perMember` |
| TeamStatsFacts.EmptyTeam | src/pages/components/teamWorkoutComponents/TeamStats.jsx:75-82 | with no non-null entry there are no members, zero totals and zero averages |
| TeamStatsFacts.Averages | src/pages/components/teamWorkoutComponents/TeamStats.jsx:79-82 | the averages divide by `max(1, members)` while `memberCount` is the raw count |
| TeamStatsFacts.MemberSports | src/pages/components/teamWorkoutComponents/TeamStats.jsx:61-66 | a member's sport buckets add up to exactly its minutes |
| TeamStatsFacts.MemberLevels | src/pages/components/teamWorkoutComponents/TeamStats.jsx:60-65 | a member's intensity buckets add up to between 0 and its minutes |
| TeamStatsFacts.OverMembers | src/pages/components/teamWorkoutComponents/TeamStats.jsx:76-78 | a per-member column summed over the sorted members is the sum over the entries |
| TeamStatsFacts.TeamTotals | src/pages/components/teamWorkoutComponents/TeamStats.jsx:76-78 | the team's minutes, distance and workout count are sums over all entries |
| TeamStatsFacts.WeeklyShape | src/pages/components/teamWorkoutComponents/TeamStats.jsx:106-128 | five rows, oldest first, of consecutive Monday-midnight weeks ending with the week of `now`, each with every member's hours from the entries in that week |
| TeamStatsFacts.QuietWeek | src/pages/components/teamWorkoutComponents/TeamStats.jsx:118-126 | a member with no positive entry in the week has 0 hours |
| TeamStatsFacts.WeekEntryAdds | src/pages/components/teamWorkoutComponents/TeamStats.jsx:119-125 | an entry in the week adds its hours in hundredths to its member |
| TeamPastWorkouts.IsoDateReads | src/pages/components/teamWorkoutComponents/TeamPastWorkouts.jsx:14-19 | a date of years 0-9999 is written as ten characters `YYYY-MM-DD` naming that day |
| TeamPastWorkouts.FormatDate | src/pages/components/teamWorkoutComponents/TeamPastWorkouts.jsx:14-19 | a missing date is "?"; a text that is not a date gives its first ten characters; a label is never longer than ten characters |
| TeamPastWorkouts.FormatDateDay | src/pages/components/teamWorkoutComponents/TeamPastWorkouts.jsx:14-19 | a valid date's label names its UTC day |
| TeamPastWorkouts.DistanceShown | src/pages/components/teamWorkoutComponents/TeamPastWorkouts.jsx:20-24 | a distance label exists exactly for a positive number |
| TeamPastWorkouts.DistanceMetres | src/pages/components/teamWorkoutComponents/TeamPastWorkouts.jsx:20-24 | below 1000 the label "n m" reads back as `n` |
| TeamPastWorkouts.DistanceKilometres | src/pages/components/teamWorkoutComponents/TeamPastWorkouts.jsx:20-24 | from 1000 on the "x.xx km" label reads back within 5 metres |
| TeamPastWorkouts.DurationRoundTrip | src/pages/components/teamWorkoutComponents/TeamPastWorkouts.jsx:25-31 | a duration label exists exactly for a positive number, and "n min", "Xh" or "Xh Ym" reads back as that number |
| TeamPastWorkouts.DurationInjective | src/pages/components/teamWorkoutComponents/TeamPastWorkouts.jsx:25-31 | different durations get different labels |
| TeamPastWorkouts.NewestFirst | src/pages/components/teamWorkoutComponents/TeamPastWorkouts.jsx:48-52 | with valid dates the sorted rows are a permutation, newest first, stable for equal instants |
| TeamPastWorkouts.HeaderOrderFree | src/pages/components/teamWorkoutComponents/TeamPastWorkouts.jsx:55-67 | the count and totals do not depend on the row order |
| TeamPastWorkouts.HeaderOfSorted | src/pages/components/teamWorkoutComponents/TeamPastWorkouts.jsx:48-67 | sorted or not, the header is that of the input list |
| TeamPastWorkouts.HeaderHours | src/pages/components/teamWorkoutComponents/TeamPastWorkouts.jsx:55-64 | the hours badge reads back as the total minutes over 60, to the nearest tenth |
| TeamPastWorkouts.SubtitleShowsRole | src/pages/components/teamWorkoutComponents/TeamPastWorkouts.jsx:69-82 | "Select a squad" exactly when there is no role or "None"; otherwise the squad is named; the empty line implies a role |
| WorkoutRecords.UserLabel | src/pages/components/teamWorkoutComponents/TeamStats.jsx:25-32 | a string is its own label; a record gives its name, else username, else email, else "Unknown"; anything else gives "Unknown" |
| WorkoutRecords.DateValue | src/pages/components/myWorkoutComponents/MyStats.jsx:77-80 | `new Date(undefined)` and `new Date("")` are invalid and `new Date(null)` is the epoch |
| Initials.InitialsFromUser | src/pages/components/layout/TopBar.jsx:19-35 | one or two characters, none of them a lower-case letter |
| Initials.NameFirst | src/pages/components/layout/TopBar.jsx:20-25 | a name with text decides the initials; the e-mail is not read |
| Initials.OneWordName | src/pages/components/layout/TopBar.jsx:23 | a one-word name gives its first two characters in upper case |
| Initials.FullName | src/pages/components/layout/TopBar.jsx:24 | several words give the first letters of the first and the last word, upper-cased |
| Initials.EmailHandle | src/pages/components/layout/TopBar.jsx:26-33 | without a name, the handle's words split on `.`, `-`, `_` give the first and last letters |
| Initials.NoInitials | src/pages/components/layout/TopBar.jsx:26-34 | no name and no address, or a handle of separators only, gives "?" |
| AuthErrors.MapError | src/Auth.jsx:34-45 | the message is one of the nine fixed messages, and a falsy code fails plainly |
| AuthErrors.FirstMatchWins | src/Auth.jsx:36-43 | the first rule that matches decides the message |
| AuthErrors.NoMatchFails | src/Auth.jsx:44 | a code no rule matches gives "Authentication failed." |
| AuthErrors.MapErrorIsFirstMatch | src/Auth.jsx:35-44 | `mapError` on a present code is the first matching row of the ordered substring table |
| AuthErrors.BadCredentials | src/Auth.jsx:43 | "wrong-password" or "user-not-found", and no earlier code, gives "Invalid email or password." |
| AuthErrors.SubmitMessage | src/pages/SignOn.jsx:78-83 | the form's message is one of three: bad credentials exactly when the code names a wrong password or an unknown user; "Email already in use." exactly when it names that case and no bad credentials; "Authentication failed." exactly otherwise, a missing code included |
| AuthErrors.SubmitMessageAgrees | src/pages/SignOn.jsx:78-83 | the form's chain agrees with `mapError` wherever neither a setup nor a weak-password code nor both e-mail and credential codes occur |
| AuthErrors.SubmitMessageDiffers | src/pages/SignOn.jsx:78-83 | taken on their own, the two chains give different messages for a code naming both an e-mail in use and a wrong password; the form never receives such a code |
| AuthErrors.Rethrown | src/Auth.jsx:91-109 | the e-mail helpers rethrow an error whose message is one of `mapError`'s, never empty, and which has no code |
| AuthErrors.FormMessageOfRethrown | src/pages/SignOn.jsx:66-83 | with the helpers' rethrown error, the form shows "Authentication failed." for every provider code, never the bad-credential or e-mail-in-use message |
| SignOn.ValidEmailIff | src/pages/SignOn.jsx:42 | an address passes `^\S+@\S+$` exactly when it is two non-empty space-free runs around an "@" |
| SignOn.Validate | src/pages/SignOn.jsx:40-46 | e-mail checked always; password of 6 or more except in reset mode; name non-blank only in sign-up mode |
| SignOn.SubmitRequest | src/pages/SignOn.jsx:144-151 | reset mode sends the reset mail unvalidated; otherwise the handler runs exactly when no validator objects |
| SignOn.SubmitNeedsValidForm | src/pages/SignOn.jsx:144-151 | a request outside reset mode implies a valid address, a long enough password and, for sign-up, a name |
| SignOn.Transition | src/pages/SignOn.jsx:186-226 | a mode button always leads to another mode |
| SignOn.TransitionEdges | src/pages/SignOn.jsx:186-226 | the buttons lead from sign-in to sign-up and reset, and from those back to sign-in only |
| SignOn.GoogleFailureNotice | src/pages/SignOn.jsx:54-64 | a failed federated sign-in shows the error's own message when it is non-empty, and "Google sign-in failed." exactly otherwise |
| SignOn.GoogleNoticeOfRethrown | src/Auth.jsx:73-89 | a failed federated sign-in rethrows `mapError`'s message, so the notice is that message and never the fallback text |
| SignOn.SignOnPage.constructor | src/pages/SignOn.jsx:35-40 | the page starts in sign-in mode, idle, without a notice, with the initial values |
| SignOn.SignOnPage.Press | src/pages/SignOn.jsx:186-226 | a shown mode button switches to its mode |
| SignOn.SignOnPage.Submit | src/pages/SignOn.jsx:144-151 | the submit shows the validators' errors outside reset mode, and loading starts exactly when a request is sent |
| SignOn.SignOnPage.SubmitDone | src/pages/SignOn.jsx:66-87 | success goes home; failure shows the chain's message for the rethrown error, which is "Authentication failed." whatever the provider's code; loading ends |
| SignOn.SignOnPage.ResetDone | src/pages/SignOn.jsx:89-101 | a sent mail shows success and returns to sign-in; a failure shows an error and keeps the mode |
| SignOn.SignOnPage.GoogleBegin | src/pages/SignOn.jsx:54-55 | the federated sign-in marks loading |
| SignOn.SignOnPage.GoogleDone | src/pages/SignOn.jsx:56-64 | success goes home; failure shows the error notice; loading ends |
| SignOn.SignOnPage.Input | src/pages/SignOn.jsx:159-184 | an edit of the fields or the checkbox becomes the form's values, which the next submit reads |
| SignOn.SignOnPage.NoticeExpired | src/pages/SignOn.jsx:49-52 | the timer clears the notice |
| WorkoutsPage.FetchedRole | src/pages/Workouts.jsx:58-62 | a first record with a non-empty squad gives that squad; a first record without one, an empty answer or a failed lookup gives "None"; any other role is the first record's squad |
| WorkoutsPage.ActiveButton | src/pages/Workouts.jsx:369 | a listed role, or no role yet, lights exactly one button; any other role lights none |
| WorkoutsPage.BeginChange | src/pages/Workouts.jsx:73-77 | a change to another role while none is waiting shows the new role at once and remembers the old one; otherwise nothing changes |
| WorkoutsPage.FinishChange | src/pages/Workouts.jsx:78-85 | success keeps the role, failure restores the remembered one, and nothing is waiting afterwards |
| WorkoutsPage.ChangeOutcome | src/pages/Workouts.jsx:73-86 | after a change, the role is the new one on success and the old one on failure |
| WorkoutsPage.IgnoredClicks | src/pages/Workouts.jsx:74 | clicks while a change is waiting, and on the current role, are ignored |
| WorkoutsPage.RoleMenu.constructor | src/pages/Workouts.jsx:28-30 | no role yet, loading, nothing waiting |
| WorkoutsPage.RoleMenu.RoleFetched | src/pages/Workouts.jsx:58-64 | the fetched role is set and loading ends |
| WorkoutsPage.RoleMenu.ChangeRole | src/pages/Workouts.jsx:73-77 | the handler sends exactly when the change is allowed and moves to the begun state |
| WorkoutsPage.RoleMenu.ChangeDone | src/pages/Workouts.jsx:78-85 | the server's answer finishes the change |
| WorkoutForm.DurationMinutes | src/pages/components/MyWorkouts.jsx:46 | an empty or missing duration is 0 minutes |
| WorkoutForm.TwoParts | src/pages/components/MyWorkouts.jsx:47-49 | text with one ":" is read part by part |
| WorkoutForm.ClockText | src/pages/components/MyWorkouts.jsx:45-50 | "h:mm" reads as `h * 60 + m` minutes |
| WorkoutForm.BadMinutePart | src/pages/components/MyWorkouts.jsx:48 | a non-numeric minute part gives 0 |
| WorkoutForm.BadHourPart | src/pages/components/MyWorkouts.jsx:48 | a non-numeric hour part gives 0, whatever follows it |
| WorkoutForm.HoursOnly | src/pages/components/MyWorkouts.jsx:47-49 | a number without ":" gives `NaN`, since the missing minutes are `undefined` |
| WorkoutForm.SaveEnablement | src/pages/components/MyWorkouts.jsx:194-202 | with every field filled and a positive "h:mm" Save is enabled; an empty duration or a bare hour keeps it disabled |
| WorkoutForm.Toggled | src/pages/components/MyWorkouts.jsx:154 | clicking the selected level clears it, any other selects it |
| WorkoutForm.ToggleTwice | src/pages/components/MyWorkouts.jsx:154 | two clicks on the same level restore an empty or that-level selection |
| WorkoutForm.LogWorkoutForm.constructor | src/pages/components/MyWorkouts.jsx:20-28 | the form starts with no date, empty sport, type, duration and intensity, not submitting, so Save is disabled |
| WorkoutForm.LogWorkoutForm.SetDuration | src/pages/components/MyWorkouts.jsx:174-179 | the picker's value, or `null` after a save, becomes the duration and nothing else changes |
| WorkoutForm.LogWorkoutForm.ClickIntensity | src/pages/components/MyWorkouts.jsx:154 | the intensity field takes the toggled value, nothing else changes |
| FixedText.FixedRoundTrip | src/pages/components/teamWorkoutComponents/TeamPastWorkouts.jsx:23 | what `toFixed(p)` writes reads back as the rounded value |
| FixedText.FixedValue | src/pages/components/teamWorkoutComponents/TeamPastWorkouts.jsx:23 | the value shown is the quotient rounded to `p` decimals, half away from zero |
| Numbers.NumberOfNatToString | src/pages/components/Calendar.jsx:78-82 | `Number(String(n))` is `n`, also after two-digit padding |

## Left out

- Network calls. These are the busy-event load, refresh and Google sync (`Calendar.jsx` 166-201, 377-394), the user lookup and the role update, and the workout list fetch. Each server answer is a parameter of an outcome method instead. The initial load is the same merge as the refresh and is not modelled separately.
- The `cancelled` flags that guard against stale responses. They are about concurrency.
- Firebase sign-in and sign-out, the popup-to-redirect fallback and `localStorage` in `Auth.jsx`. These are foreign calls and persistence; only `mapError` is modelled.
- Floating point. Minutes and distances are whole numbers. Hours are kept in minutes or in whole hundredths (`HoursHundredths`). The chart rows in hours, the tooltip percentages and the pixel positions of events are not modelled. `CalendarDates.PixelToMinutes` takes whole pixels. The source's `clientY - rect.top` may be fractional; it is rounded the same way after division by 12.
- Locale and time-zone behaviour. Local time is a fixed offset, without daylight saving. `weekTitle`, `formatTime` and the date inputs' locale text are not modelled.
- `crypto.randomUUID`, the clock and `new Date(text)`. The fresh ids, `now` and the parsed instants are parameters.
- Rendering, routing, the charts and the legacy list pages.
- MyStats.Stats: `dates.sort()` followed by reading both ends is modelled as a sort by key of the counted dates. The `spanWeeks` quotient is a real number, not a double.
- TeamStatsFacts.Averages: the averages are exact quotients. The `toFixed(2)` of `avgHoursPerAthlete` and of `totalHours` is left out.
- TeamStats.Team: the `dates` array the `forEach` fills is never read, so it is not modelled.
- TeamStats.Team: `perMember` and the weekly rows are plain JavaScript objects, modelled as maps. A label that names an `Object.prototype` member is not treated as JavaScript would: "constructor" or "toString" finds the inherited function and the sums become `NaN`, "__proto__" drops the member and alters the prototype, "hasOwnProperty" makes the weekly loop throw, and "week" overwrites the row's week label.
- TeamStatsFacts.MembersAreLabels: holds for the map model; for the prototype-member labels above the source's key set differs.
- TeamPastWorkouts.SortedWorkouts: the list holds no `null` entries. In the source a `null` row throws while sorting and while rendering.
- StringOrder.LexLe: compares characters as code points. JavaScript's `sort()` compares UTF-16 code units, so the order differs for characters outside the Basic Multilingual Plane.
- TeamPastWorkouts.SortedWorkouts: when a date is invalid the comparator yields `NaN` and the engine's order is unspecified. The model then gives `None`, and `HeaderOrderFree` shows the header does not depend on that order.
- CalendarPage.Calendar.HandleEdit: requires a valid start. Only events shown on a day of the grid can be clicked, and those all have valid starts.
- Numbers.ToNumber: reads optionally signed decimal integers with surrounding white space, and "" as 0. Fractions, exponents and hexadecimal give `NaN`.
- Case mapping (`toLowerCase`, `toUpperCase`) is ASCII only. String lengths count characters, not UTF-16 code units.
- FixedText.Fixed: `toFixed` is modelled on exact rationals. The double-precision representation error at some ties is left out.
- SignOn.SignOnPage.Input: sets the values only. What the form library does to the shown field errors on a change is not modelled.
