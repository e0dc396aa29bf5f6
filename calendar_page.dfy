/**
 * The state of the calendar page and its handlers: week navigation, the
 * event form, the optimistic add/update/delete with their server outcomes,
 * the busy-event refresh, the two iCalendar imports, and drag-to-create.
 * A handler that waits for the server is split in two: the part that runs
 * before the request, and one method per outcome.
 */
module CalendarPage {
  import opened Wrappers
  import opened Strings
  import opened Numbers
  import opened Time
  import opened CalendarDates
  import opened CalendarEvents
  import opened CalendarIcs

  /** A drag selection from minute `s` to minute `e` of a day. */
  predicate DragOk(s: int, e: int) {
    0 <= s <= 1440 && s % 15 == 0 && e % 15 == 0 && s + 15 <= e <= 1470
  }

  /** `formatInputTime` of a date that may be invalid: `String(NaN)` twice. */
  function FormatDateInput(z: Zone, d: Date): string {
    if d.At? then FormatInputTime(z, d.ms) else "NaN:NaN"
  }

  class Calendar {
    const zone: Zone
    const userEmail: Option<string>

    var events: seq<Event>
    var weekStart: Instant
    var selectedDate: Instant

    var createOpen: bool
    var editEvent: Option<Event>
    var title: string
    var notes: string
    var allDay: bool
    var startTime: string
    var endTime: string
    var error: Option<string>
    var loadingRemote: bool

    var dragSelecting: bool
    var dragDayIdx: Option<int>
    var dragStartMin: Option<int>
    var dragEndMin: Option<int>

    /** An updater passed to `setEvents` threw during rendering. The page
        has no error boundary, so it is torn down and no handler runs any
        more. */
    var crashed: bool

    ghost predicate Valid()
      reads this`weekStart, this`selectedDate
      reads this`dragSelecting, this`dragDayIdx, this`dragStartMin, this`dragEndMin
    {
      IsMidnight(zone, weekStart) && WeekDay(zone, weekStart) == 1
      && IsMidnight(zone, selectedDate)
      && (dragSelecting ==>
            dragDayIdx.Some? && 0 <= dragDayIdx.value < 7
            && dragStartMin.Some? && dragEndMin.Some?
            && DragOk(dragStartMin.value, dragEndMin.value))
    }

    /** The form after `resetForm()`. */
    predicate FormIsReset()
      reads this`title, this`notes, this`startTime, this`endTime, this`allDay, this`editEvent
    {
      title == "" && notes == "" && startTime == "09:00" && endTime == "10:00"
      && !allDay && editEvent.None?
    }

    /** The page as first shown at time `now`. */
    constructor(z: Zone, now: Instant, email: Option<string>)
      ensures Valid() && FormIsReset()
      ensures zone == z && userEmail == email && events == []
      ensures selectedDate == StartOfDay(z, now) && weekStart == StartOfWeek(z, now)
      ensures !createOpen && error.None? && !loadingRemote
      ensures !dragSelecting && dragDayIdx.None? && dragStartMin.None? && dragEndMin.None?
      ensures !crashed
    {
      zone := z;
      userEmail := email;
      events := [];
      selectedDate := StartOfDay(z, now);
      weekStart := StartOfWeek(z, now);
      createOpen := false;
      editEvent := None;
      title := "";
      notes := "";
      allDay := false;
      startTime := "09:00";
      endTime := "10:00";
      error := None;
      loadingRemote := false;
      dragSelecting := false;
      dragDayIdx := None;
      dragStartMin := None;
      dragEndMin := None;
      crashed := false;
      new;
      StartOfWeekProps(z, now);
    }

    method ResetForm()
      modifies this`title, this`notes, this`startTime, this`endTime, this`allDay, this`editEvent
      ensures FormIsReset()
    {
      title := "";
      notes := "";
      startTime := "09:00";
      endTime := "10:00";
      allDay := false;
      editEvent := None;
    }

    // ---------- week navigation ----------

    method PrevWeek()
      requires Valid()
      modifies this`weekStart, this`selectedDate
      ensures Valid()
      ensures weekStart == AddDays(old(weekStart), -7) && selectedDate == weekStart
      ensures StartOfWeek(zone, weekStart) == weekStart
    {
      var ns := AddDays(weekStart, -7);
      AddWeeksKeepsWeekStart(zone, weekStart, -1);
      StartOfWeekProps(zone, ns);
      weekStart := ns;
      selectedDate := ns;
    }

    method NextWeek()
      requires Valid()
      modifies this`weekStart, this`selectedDate
      ensures Valid()
      ensures weekStart == AddDays(old(weekStart), 7) && selectedDate == weekStart
      ensures StartOfWeek(zone, weekStart) == weekStart
    {
      var ns := AddDays(weekStart, 7);
      AddWeeksKeepsWeekStart(zone, weekStart, 1);
      StartOfWeekProps(zone, ns);
      weekStart := ns;
      selectedDate := ns;
    }

    method GoToday(now: Instant)
      requires Valid()
      modifies this`weekStart, this`selectedDate
      ensures Valid()
      ensures selectedDate == StartOfDay(zone, now) && weekStart == StartOfWeek(zone, selectedDate)
      ensures weekStart <= now < weekStart + MS_PER_WEEK
    {
      var today := StartOfDay(zone, now);
      selectedDate := today;
      weekStart := StartOfWeek(zone, today);
      StartOfWeekProps(zone, today);
      StartOfWeekProps(zone, now);
      StartOfWeekUnique(zone, now, weekStart);
    }

    // ---------- add ----------

    /** `handleAdd` up to the request: the form's event is appended at once
        under `tempId`, and the form is reset and closed. */
    method HandleAdd(tempId: string)
      requires Valid() && tempId !in Ids(events)
      modifies this`events, this`createOpen
      modifies this`title, this`notes, this`startTime, this`endTime, this`allDay, this`editEvent
      ensures Valid() && FormIsReset() && !createOpen
      ensures var t := FormTimes(zone, old(selectedDate), old(allDay), old(startTime), old(endTime));
        events == old(events) + [Event(tempId, if old(title) != "" then old(title) else "Busy",
                                       At(t.0), At(t.1), old(notes), Busy, old(allDay), userEmail)]
      ensures WithId(events, tempId) == [events[|events| - 1]]
      ensures events[|events| - 1].start.ms < events[|events| - 1].end.ms
    {
      var t := FormTimes(zone, selectedDate, allDay, startTime, endTime);
      var ev := Event(tempId, if title != "" then title else "Busy", At(t.0), At(t.1), notes, Busy, allDay, userEmail);
      AddInsertsOne(events, ev);
      AppendAndClose(ev);
    }

    /** The event is appended, and the form is reset and closed. */
    method AppendAndClose(ev: Event)
      requires Valid()
      modifies this`events, this`createOpen
      modifies this`title, this`notes, this`startTime, this`endTime, this`allDay, this`editEvent
      ensures Valid() && FormIsReset() && !createOpen
      ensures events == old(events) + [ev]
    {
      events := events + [ev];
      ResetForm();
      createOpen := false;
    }

    /** The save succeeded: a returned id renames the temporary one. */
    method AddSaved(tempId: string, savedId: Option<string>)
      modifies this`events
      ensures events == (if savedId.Some? && savedId.value != "" then RenameId(old(events), tempId, savedId.value)
                         else old(events))
    {
      if savedId.Some? && savedId.value != "" {
        events := RenameId(events, tempId, savedId.value);
      }
    }

    /** The save failed: the temporary event is removed again. */
    method AddFailed(tempId: string)
      modifies this`events, this`error
      ensures events == RemoveId(old(events), tempId)
      ensures error == Some("Failed to save busy event")
    {
      events := RemoveId(events, tempId);
      error := Some("Failed to save busy event");
    }

    // ---------- update, delete, edit ----------

    /** `handleUpdate` up to the request: the edited event takes the form's
        values at once; returns the id to send, if an event is being edited.
        The page never looks at the status of the answer: only a request
        that does not reach the server leads to `RequestFailed`. */
    method HandleUpdate() returns (sent: Option<string>)
      requires Valid()
      modifies this`events, this`createOpen
      modifies this`title, this`notes, this`startTime, this`endTime, this`allDay, this`editEvent
      ensures Valid()
      ensures old(editEvent).None? ==> sent.None? && unchanged(this)
      ensures old(editEvent).Some? ==>
        var t := FormTimes(zone, old(selectedDate), old(allDay), old(startTime), old(endTime));
        sent == Some(old(editEvent).value.id) && FormIsReset() && !createOpen
        && events == UpdateById(old(events), old(editEvent).value.id,
                                if old(title) != "" then old(title) else "Busy",
                                At(t.0), At(t.1), old(notes), old(allDay))
    {
      if editEvent.None? {
        return None;
      }
      var t := FormTimes(zone, selectedDate, allDay, startTime, endTime);
      var id := editEvent.value.id;
      ApplyEdit(id, t.0, t.1);
      sent := Some(id);
    }

    /** The edited event takes the form's values with the given times, and
        the form is reset and closed. */
    method ApplyEdit(id: string, start: Instant, end: Instant)
      requires Valid()
      modifies this`events, this`createOpen
      modifies this`title, this`notes, this`startTime, this`endTime, this`allDay, this`editEvent
      ensures Valid() && FormIsReset() && !createOpen
      ensures events == UpdateById(old(events), id, if old(title) != "" then old(title) else "Busy",
                                   At(start), At(end), old(notes), old(allDay))
    {
      events := UpdateById(events, id, if title != "" then title else "Busy", At(start), At(end), notes, allDay);
      ResetForm();
      createOpen := false;
    }

    /** An update or delete request that did not reach the server (the
        fetch itself was rejected; an answer with an error status is not a
        failure here): the message is set and a refresh starts at once; the
        refresh clears the message again when a user is signed in. */
    method RequestFailed(message: string)
      modifies this`error, this`loadingRemote
      ensures error == (if userEmail.Some? then None else Some(message))
      ensures loadingRemote == (userEmail.Some? || old(loadingRemote))
    {
      error := Some(message);
      BeginRefresh();
    }

    /** `handleDelete(id)` up to the request: the events with the id go at
        once; returns whether the server is asked to delete (the first event
        with the id is a busy event). */
    method HandleDelete(id: string) returns (askServer: bool)
      modifies this`events
      modifies this`title, this`notes, this`startTime, this`endTime, this`allDay, this`editEvent
      ensures events == RemoveId(old(events), id)
      ensures askServer <==> exists k :: 0 <= k < |old(events)| && old(events)[k].id == id
                                         && old(events)[k].source == Busy
                                         && forall j :: 0 <= j < k ==> old(events)[j].id != id
      ensures old(editEvent).Some? && old(editEvent).value.id == id ==> FormIsReset()
      ensures !(old(editEvent).Some? && old(editEvent).value.id == id) ==>
                editEvent == old(editEvent) && title == old(title) && notes == old(notes)
                && startTime == old(startTime) && endTime == old(endTime) && allDay == old(allDay)
    {
      var k := 0;
      while k < |events| && events[k].id != id
        invariant 0 <= k <= |events|
        invariant forall j :: 0 <= j < k ==> events[j].id != id
      {
        k := k + 1;
      }
      askServer := k < |events| && events[k].source == Busy;
      events := RemoveId(events, id);
      if editEvent.Some? && editEvent.value.id == id {
        ResetForm();
      }
    }

    /** `handleEdit(ev)`: the form opens with the event's values. The event
        comes from the page's lists, which show only events whose start is
        on a shown day, so its start is valid. */
    method HandleEdit(ev: Event)
      requires Valid() && ev.start.At?
      modifies this`editEvent, this`selectedDate, this`createOpen
      modifies this`title, this`notes, this`allDay, this`startTime, this`endTime
      ensures Valid() && createOpen
      ensures editEvent == Some(ev) && selectedDate == StartOfDay(zone, ev.start.ms)
      ensures title == ev.title && notes == ev.notes && allDay == ev.allDay
      ensures startTime == FormatInputTime(zone, ev.start.ms) && endTime == FormatDateInput(zone, ev.end)
    {
      var t := ev.start.ms;
      var day := StartOfDay(zone, t);
      OpenForm(Some(ev), day, ev.title, ev.notes, ev.allDay, FormatInputTime(zone, t), FormatDateInput(zone, ev.end));
    }

    /** The form opens on `day` with the given values. */
    method OpenForm(edit: Option<Event>, day: Instant, t: string, n: string, a: bool, st: string, et: string)
      requires Valid() && IsMidnight(zone, day)
      modifies this`editEvent, this`selectedDate, this`createOpen
      modifies this`title, this`notes, this`allDay, this`startTime, this`endTime
      ensures Valid() && createOpen
      ensures editEvent == edit && selectedDate == day && title == t && notes == n && allDay == a
      ensures startTime == st && endTime == et
    {
      editEvent := edit;
      selectedDate := day;
      title := t;
      notes := n;
      allDay := a;
      startTime := st;
      endTime := et;
      createOpen := true;
    }

    // ---------- the busy-event refresh ----------

    /** `refreshBusy()` up to the request. */
    method BeginRefresh()
      modifies this`error, this`loadingRemote
      ensures userEmail.None? ==> error == old(error) && loadingRemote == old(loadingRemote)
      ensures userEmail.Some? ==> error.None? && loadingRemote
    {
      if userEmail.Some? {
        loadingRemote := true;
        error := None;
      }
    }

    /** The refresh answered: `Some(data)` for a successful response (whose
        body may be `null`), `None` for a failed one. `parse` is the
        platform's date-string parser. */
    method RefreshDone(answer: Option<Option<seq<BusyRecord>>>, parse: string -> Date)
      requires userEmail.Some?
      modifies this`events, this`error, this`loadingRemote
      ensures answer.Some? ==> events == MergeBusy(old(events), MapBusy(answer.value, userEmail.value, parse))
                               && error == old(error)
      ensures answer.None? ==> events == old(events) && error == Some("Failed to refresh")
      ensures !loadingRemote
    {
      if answer.Some? {
        events := MergeBusy(events, MapBusy(answer.value, userEmail.value, parse));
      } else {
        error := Some("Failed to refresh");
      }
      loadingRemote := false;
    }

    // ---------- imports ----------

    /** `handleICSFile`: the events of the file not already in the list (by
        start instant and title) are appended. When the list or the file has
        an event with an invalid start, `toISOString()` throws inside the
        `setEvents` updater: the list is never replaced and the page crashes.
        A file without events leaves the updater out. `None` is no file. */
    method HandleIcsFile(file: Option<string>, now: Instant, newId: nat -> string)
      modifies this`events, this`crashed
      ensures file.None? ==> events == old(events) && crashed == old(crashed)
      ensures file.Some? ==>
        var imported := ParsedEvents(zone, now, newId, file.value);
        var merged := MergeImported(old(events), imported);
        && events == (if imported != [] && merged.Some? then merged.value else old(events))
        && crashed == (old(crashed) || (imported != [] && merged.None?))
    {
      if file.None? {
        return;
      }
      var imported := ParseIcs(zone, now, newId, file.value);
      if |imported| > 0 {
        var merged := MergeImported(events, imported);
        if merged.Some? {
          events := merged.value;
        } else {
          crashed := true;
        }
      }
    }

    /** `importRawICS`: every event read is appended, without de-duplication. */
    method ImportRawIcs(raw: string, now: Instant, newId: nat -> string)
      modifies this`events
      ensures events == old(events) + ParsedEvents(zone, now, newId, raw)
    {
      var imported := ParseIcs(zone, now, newId, raw);
      if |imported| > 0 {
        events := events + imported;
      } else {
        AppendNothing(events, imported);
      }
    }

    // ---------- drag-to-create ----------

    /** `beginDrag(dayIdx, y)`: a 30-minute selection from the minute under
        the cursor (`y` pixels from the top of the column). */
    method BeginDrag(dayIdx: int, y: int)
      requires Valid() && 0 <= dayIdx < 7
      modifies this`dragSelecting, this`dragDayIdx, this`dragStartMin, this`dragEndMin
      ensures Valid() && dragSelecting && dragDayIdx == Some(dayIdx)
      ensures dragStartMin == Some(PixelToMinutes(y)) && dragEndMin == Some(PixelToMinutes(y) + 30)
    {
      var mins := PixelToMinutes(y);
      dragSelecting := true;
      dragDayIdx := Some(dayIdx);
      dragStartMin := Some(mins);
      dragEndMin := Some(mins + 30);
    }

    /** A mouse press in a day column starts a drag unless it is on an event. */
    method ColumnMouseDown(dayIdx: int, y: int, onEvent: bool)
      requires Valid() && 0 <= dayIdx < 7
      modifies this`dragSelecting, this`dragDayIdx, this`dragStartMin, this`dragEndMin
      ensures Valid()
      ensures onEvent ==> unchanged(this)
      ensures !onEvent ==> dragSelecting && dragDayIdx == Some(dayIdx)
                           && dragStartMin == Some(PixelToMinutes(y))
                           && dragEndMin == Some(PixelToMinutes(y) + 30)
    {
      if !onEvent {
        BeginDrag(dayIdx, y);
      }
    }

    /** `updateDrag(y)`: moving above the start swaps the bounds (the old
        start becomes the end); otherwise the end follows the cursor, at
        least 15 minutes after the start. */
    method UpdateDrag(y: int)
      requires Valid()
      modifies this`dragStartMin, this`dragEndMin
      ensures Valid()
      ensures !old(dragSelecting) ==> unchanged(this)
      ensures old(dragSelecting) && PixelToMinutes(y) < old(dragStartMin).value ==>
                dragStartMin == Some(PixelToMinutes(y)) && dragEndMin == old(dragStartMin)
      ensures old(dragSelecting) && PixelToMinutes(y) >= old(dragStartMin).value ==>
                dragStartMin == old(dragStartMin)
                && dragEndMin == Some(if PixelToMinutes(y) > old(dragStartMin).value + 15
                                      then PixelToMinutes(y) else old(dragStartMin).value + 15)
    {
      if !dragSelecting || dragDayIdx.None? {
        return;
      }
      var mins := PixelToMinutes(y);
      var s := dragStartMin.value;
      if mins < s {
        dragEndMin := Some(s);
        dragStartMin := Some(mins);
      } else {
        dragEndMin := Some(if mins > s + 15 then mins else s + 15);
      }
    }

    /** `finishDrag()`: the selection opens the form for a busy event on the
        dragged day, and the drag fields are cleared. The form's times then
        describe exactly the selected minutes. */
    method FinishDrag()
      requires Valid()
      modifies this`dragSelecting, this`dragDayIdx, this`dragStartMin, this`dragEndMin
      modifies this`editEvent, this`selectedDate, this`createOpen
      modifies this`title, this`notes, this`allDay, this`startTime, this`endTime
      ensures Valid()
      ensures !dragSelecting
      ensures !old(dragSelecting) ==>
                dragDayIdx == old(dragDayIdx) && dragStartMin == old(dragStartMin) && dragEndMin == old(dragEndMin)
                && selectedDate == old(selectedDate) && createOpen == old(createOpen) && editEvent == old(editEvent)
                && title == old(title) && notes == old(notes) && allDay == old(allDay)
                && startTime == old(startTime) && endTime == old(endTime)
      ensures old(dragSelecting) ==>
                dragDayIdx.None? && dragStartMin.None? && dragEndMin.None?
                && selectedDate == AddDays(old(weekStart), old(dragDayIdx).value)
                && startTime == MinsToTime(old(dragStartMin).value)
                && endTime == MinsToTime(old(dragEndMin).value)
                && title == "Busy" && notes == "" && !allDay && editEvent.None? && createOpen
    {
      if !dragSelecting || dragDayIdx.None? {
        dragSelecting := false;
        return;
      }
      var day := AddDays(weekStart, dragDayIdx.value);
      var s := dragStartMin.value;
      var e := dragEndMin.value;
      LocalDayAddDays(zone, weekStart, dragDayIdx.value);
      var sd := StartOfDay(zone, day);
      assert sd == day;
      dragSelecting := false;
      OpenForm(None, sd, "Busy", "", false, MinsToTime(s), MinsToTime(e));
      dragDayIdx := None;
      dragStartMin := None;
      dragEndMin := None;
    }
  }

  /** A drag selection written into the form by `minsToTime` and read back
      by the form gives exactly the selected minutes of the day. */
  lemma DragSelectionTimes(z: Zone, day: Instant, s: nat, e: nat)
    requires IsMidnight(z, day) && s < e
    ensures FormTimes(z, day, false, MinsToTime(s), MinsToTime(e)).0 == day + s * MS_PER_MINUTE
    ensures FormTimes(z, day, false, MinsToTime(s), MinsToTime(e)).1 == day + e * MS_PER_MINUTE
  {
    ParseMinsToTime(z, day, s);
    ParseMinsToTime(z, day, e);
    assert s * MS_PER_MINUTE < e * MS_PER_MINUTE;
  }

  lemma AppendNothing<T>(s: seq<T>, t: seq<T>)
    requires |t| == 0
    ensures s + t == s
  {
  }
}
