/**
 * The events of the weekly calendar and the pure parts of the calendar
 * page: which events a week shows, how they split into all-day and timed
 * ones, and the updates the page applies to its event list (optimistic add,
 * rename and roll-back, update and delete by id, the busy-event refresh and
 * the two import paths).
 */
module CalendarEvents {
  import opened Wrappers
  import opened Seqs
  import opened Time

  /** Where an event comes from: the user's busy events on the server, or an
      imported iCalendar file. */
  datatype Source = Busy | Import

  datatype Event = Event(
    id: string,
    title: string,
    start: Date,
    end: Date,
    notes: string,
    source: Source,
    allDay: bool,
    owner: Option<string>)

  // ---------- the week shown ----------

  /** The three-clause week filter: the event starts in the week, ends in
      the week (the end bound included), or straddles its start. Comparisons
      with an invalid date are false. */
  predicate InWeek(e: Event, weekStart: Instant) {
    var ws := At(weekStart);
    var we := At(AddDays(weekStart, 7));
    (Le(ws, e.start) && Lt(e.start, we))
    || (Lt(ws, e.end) && Le(e.end, we))
    || (Lt(e.start, ws) && Lt(ws, e.end))
  }

  /** For an event with valid dates and `start <= end`: it is in the week
      exactly when it overlaps the week's interior, or is an instantaneous
      event at either bound of the week. */
  lemma InWeekIff(e: Event, weekStart: Instant)
    requires e.start.At? && e.end.At? && e.start.ms <= e.end.ms
    ensures InWeek(e, weekStart) <==>
      (e.start.ms < weekStart + MS_PER_WEEK && weekStart < e.end.ms)
      || e.start.ms == e.end.ms == weekStart
      || e.start.ms == e.end.ms == weekStart + MS_PER_WEEK
  {
  }

  /** An event whose start is invalid is shown only through its end. */
  lemma InWeekInvalidStart(e: Event, weekStart: Instant)
    requires e.start == InvalidDate
    ensures InWeek(e, weekStart) <==>
      e.end.At? && weekStart < e.end.ms <= weekStart + MS_PER_WEEK
  {
  }

  /** `weekEvents` */
  function WeekEvents(events: seq<Event>, weekStart: Instant): (r: seq<Event>)
    ensures forall e :: e in r <==> e in events && InWeek(e, weekStart)
  {
    Filter(events, (e: Event) => InWeek(e, weekStart))
  }

  /** The first of the seven days of the week, counted from `i`, on whose
      local date `start` falls: `weekDays.findIndex(d => sameDay(d, start))`. */
  function FindDayFrom(z: Zone, weekStart: Instant, start: Date, i: nat): (r: Option<nat>)
    requires i <= 7
    ensures r.Some? ==> i <= r.value < 7 && start.At?
                        && SameDay(z, AddDays(weekStart, r.value), start.ms)
    ensures r.Some? && start.At? ==>
              forall j :: i <= j < r.value ==> !SameDay(z, AddDays(weekStart, j), start.ms)
    ensures r.None? && start.At? ==>
              forall j :: i <= j < 7 ==> !SameDay(z, AddDays(weekStart, j), start.ms)
    decreases 7 - i
  {
    if i == 7 then None
    else if start.At? && SameDay(z, AddDays(weekStart, i), start.ms) then Some(i)
    else FindDayFrom(z, weekStart, start, i + 1)
  }

  function FindDay(z: Zone, weekStart: Instant, start: Date): Option<nat> {
    FindDayFrom(z, weekStart, start, 0)
  }

  /** The day column of an event is its local day counted from the week's
      first day, when that lies in 0..6. */
  lemma FindDayIff(z: Zone, weekStart: Instant, start: Date)
    ensures FindDay(z, weekStart, start) ==
      (if start.At? && 0 <= LocalDay(z, start.ms) - LocalDay(z, weekStart) < 7
       then Some(LocalDay(z, start.ms) - LocalDay(z, weekStart)) else None)
  {
    var r := FindDay(z, weekStart, start);
    if start.At? {
      var k := LocalDay(z, start.ms) - LocalDay(z, weekStart);
      forall j: int | 0 <= j < 7
        ensures SameDay(z, AddDays(weekStart, j), start.ms) <==> j == k
      {
        LocalDayAddDays(z, weekStart, j);
      }
      if 0 <= k < 7 {
        assert SameDay(z, AddDays(weekStart, k), start.ms);
      }
    }
  }

  /** `allDayByDay`: for each of the seven days, the week's all-day events
      that start on it. */
  function AllDayByDay(z: Zone, events: seq<Event>, weekStart: Instant): (r: seq<seq<Event>>)
    ensures |r| == 7
  {
    seq(7, i => Filter(WeekEvents(events, weekStart),
                       (e: Event) => e.allDay && FindDay(z, weekStart, e.start) == Some(i)))
  }

  /** An event is listed under day `i` exactly when it is an all-day event of
      the week whose start falls on the `i`-th day; so it is listed at most once. */
  lemma AllDayByDayIff(z: Zone, events: seq<Event>, weekStart: Instant, i: nat, e: Event)
    requires i < 7
    ensures e in AllDayByDay(z, events, weekStart)[i] <==>
      e in events && InWeek(e, weekStart) && e.allDay && e.start.At?
      && LocalDay(z, e.start.ms) == LocalDay(z, weekStart) + i
  {
    FindDayIff(z, weekStart, e.start);
  }

  /** `timedEvents` */
  function TimedEvents(events: seq<Event>, weekStart: Instant): (r: seq<Event>)
    ensures forall e :: e in r <==> e in events && InWeek(e, weekStart) && !e.allDay
  {
    Filter(WeekEvents(events, weekStart), (e: Event) => !e.allDay)
  }

  // ---------- edits of the event list ----------

  function Ids(events: seq<Event>): (r: seq<string>)
    ensures |r| == |events| && forall i :: 0 <= i < |events| ==> r[i] == events[i].id
  {
    seq(|events|, i requires 0 <= i < |events| => events[i].id)
  }

  /** The tests the list edits filter by. */
  function HasId(id: string): Event -> bool { (e: Event) => e.id == id }
  function LacksId(id: string): Event -> bool { (e: Event) => e.id != id }

  /** The events carrying `id`. */
  function WithId(events: seq<Event>, id: string): seq<Event> {
    Filter(events, HasId(id))
  }

  /** `events.map(e => e.id === from ? { ...e, id: to } : e)` */
  function RenameId(events: seq<Event>, from: string, to: string): (r: seq<Event>)
    ensures |r| == |events|
    ensures forall i :: 0 <= i < |events| && events[i].id != from ==> r[i] == events[i]
    ensures forall i :: 0 <= i < |events| && events[i].id == from ==> r[i] == events[i].(id := to)
  {
    seq(|events|, i requires 0 <= i < |events| =>
      if events[i].id == from then events[i].(id := to) else events[i])
  }

  /** `events.filter(e => e.id !== id)` */
  function RemoveId(events: seq<Event>, id: string): (r: seq<Event>)
    ensures id !in Ids(r)
    ensures forall e :: e in r <==> e in events && e.id != id
    ensures Subsequence(r, events)
  {
    var r := Filter(events, LacksId(id));
    assert forall k :: 0 <= k < |r| ==> r[k] in r;
    FilterSubsequence(events, LacksId(id));
    r
  }

  /** Removing an id that is not in the list changes nothing. */
  lemma RemoveAbsentId(events: seq<Event>, id: string)
    requires id !in Ids(events)
    ensures RemoveId(events, id) == events
  {
    forall e | e in events ensures e.id != id {
      var k :| 0 <= k < |events| && events[k] == e;
    }
    FilterAll(events, LacksId(id));
  }

  /** The optimistic insert of `handleAdd` puts exactly one event under the
      (fresh) temporary id at the end of the list. */
  lemma AddInsertsOne(prev: seq<Event>, ev: Event)
    requires ev.id !in Ids(prev)
    ensures WithId(prev + [ev], ev.id) == [ev]
  {
    FilterConcat(prev, [ev], HasId(ev.id));
    forall e | e in prev ensures e.id != ev.id {
      var k :| 0 <= k < |prev| && prev[k] == e;
    }
    FilterNone(prev, HasId(ev.id));
    assert [ev][1..] == [];
  }

  /** When the server answers with an id, only the inserted event is
      renamed, whatever else was added to the list since. */
  lemma AddThenRename(prev: seq<Event>, ev: Event, later: seq<Event>, newId: string)
    requires ev.id !in Ids(prev + later)
    ensures RenameId(prev + [ev] + later, ev.id, newId) == prev + [ev.(id := newId)] + later
  {
    var s := prev + [ev] + later;
    var r := RenameId(s, ev.id, newId);
    forall i | 0 <= i < |s| ensures r[i] == (prev + [ev.(id := newId)] + later)[i] {
      if i < |prev| {
        assert s[i] == prev[i] && Ids(prev + later)[i] == prev[i].id;
      } else if i > |prev| {
        assert s[i] == later[i - |prev| - 1];
        assert Ids(prev + later)[i - 1] == later[i - |prev| - 1].id;
      }
    }
  }

  /** When saving fails, removing the temporary id restores the list as it
      would have been without the insert. */
  lemma AddThenRollback(prev: seq<Event>, ev: Event, later: seq<Event>)
    requires ev.id !in Ids(prev + later)
    ensures RemoveId(prev + [ev] + later, ev.id) == prev + later
  {
    var p := LacksId(ev.id);
    var s := prev + [ev] + later;
    FilterConcat(prev + [ev], later, p);
    FilterConcat(prev, [ev], p);
    DropOwnId(ev);
    assert Filter(prev + [ev], p) == Filter(prev, p);
    forall i | 0 <= i < |prev| ensures p(prev[i]) {
      assert Ids(prev + later)[i] == prev[i].id;
    }
    forall i | 0 <= i < |later| ensures p(later[i]) {
      assert Ids(prev + later)[|prev| + i] == later[i].id;
    }
    FilterAll(prev, p);
    FilterAll(later, p);
  }

  lemma DropOwnId(ev: Event)
    ensures Filter([ev], LacksId(ev.id)) == []
  {
    assert [ev][1..] == [];
  }

  /** `handleUpdate`'s optimistic map: the events with the id take the form's
      title, times, notes and all-day flag. */
  function UpdateById(events: seq<Event>, id: string, title: string, start: Date, end: Date,
                      notes: string, allDay: bool): (r: seq<Event>)
    ensures |r| == |events| && Ids(r) == Ids(events)
    ensures forall i :: 0 <= i < |events| && events[i].id != id ==> r[i] == events[i]
    ensures forall i :: 0 <= i < |events| && events[i].id == id ==>
      r[i].title == title && r[i].start == start && r[i].end == end && r[i].notes == notes
      && r[i].allDay == allDay && r[i].source == events[i].source && r[i].owner == events[i].owner
  {
    seq(|events|, i requires 0 <= i < |events| =>
      if events[i].id == id
      then events[i].(title := title, start := start, end := end, notes := notes, allDay := allDay)
      else events[i])
  }

  // ---------- the busy-event refresh ----------

  /** The `date` field of a server record: absent, `null`, or a string. */
  datatype DateField = Missing | Null | Text(s: string)

  /** A busy event as the server sends it; an absent, `null` or empty
      string field is "". */
  datatype BusyRecord = BusyRecord(
    mongoId: string, id: string, title: string,
    start: string, date: DateField, end: string,
    notes: string, allDay: bool)

  /** `new Date(x)` for the last value of a `||` chain: `undefined` and ""
      give an invalid date, `null` the epoch; `parse` is the platform's
      date-string parser. */
  function NewDate(parse: string -> Date, f: DateField): Date {
    match f
    case Missing => InvalidDate
    case Null => At(0)
    case Text(s) => if s == "" then InvalidDate else parse(s)
  }

  /** `new Date(a || date)`. */
  function DateOr(parse: string -> Date, a: string, date: DateField): Date {
    if a != "" then parse(a) else NewDate(parse, date)
  }

  /** The event one server record becomes: the end falls back to the
      start, both fall back to `date`, and a `null` date is the epoch. */
  function BusyEvent(b: BusyRecord, owner: string, parse: string -> Date): (e: Event)
    ensures e.source == Busy && e.owner == Some(owner) && e.title != ""
    ensures b.title != "" ==> e.title == b.title
    ensures b.mongoId != "" ==> e.id == b.mongoId
    ensures b.mongoId == "" ==> e.id == b.id
    ensures b.start != "" ==> e.start == parse(b.start)
    ensures b.end != "" ==> e.end == parse(b.end)
    ensures b.end == "" ==> e.end == e.start
    ensures b.start == "" && b.date == Null ==> e.start == At(0)
    ensures b.start == "" && b.date == Missing ==> e.start == InvalidDate
    ensures e.notes == b.notes && e.allDay == b.allDay
  {
    Event(
      if b.mongoId != "" then b.mongoId else b.id,
      if b.title != "" then b.title else "Busy",
      DateOr(parse, b.start, b.date),
      DateOr(parse, if b.end != "" then b.end else b.start, b.date),
      b.notes, Busy, b.allDay, Some(owner))
  }

  /** `(data || []).map(...)`: the mapped busy events of a server answer. */
  function MapBusy(data: Option<seq<BusyRecord>>, owner: string, parse: string -> Date): (r: seq<Event>)
    ensures forall e :: e in r ==> e.source == Busy && e.title != "" && e.owner == Some(owner)
    ensures data.None? ==> r == []
    ensures data.Some? ==> |r| == |data.value|
    ensures data.Some? ==> forall i :: 0 <= i < |r| ==> r[i] == BusyEvent(data.value[i], owner, parse)
  {
    var recs := data.GetOr([]);
    seq(|recs|, i requires 0 <= i < |recs| => BusyEvent(recs[i], owner, parse))
  }

  predicate IsBusy(e: Event) { e.source == Busy }
  function BusyP(): Event -> bool { (e: Event) => IsBusy(e) }
  function NotBusyP(): Event -> bool { (e: Event) => !IsBusy(e) }

  /** The refresh keeps every non-busy event, in order, and replaces the
      busy ones by the fresh list. */
  function MergeBusy(prev: seq<Event>, mapped: seq<Event>): seq<Event> {
    Filter(prev, NotBusyP()) + mapped
  }

  /** After a refresh, the non-busy events are those from before and the busy
      ones are exactly the fetched ones; so refreshing twice with the same
      answer is refreshing once. */
  lemma MergeBusyProps(prev: seq<Event>, mapped: seq<Event>)
    requires forall e :: e in mapped ==> IsBusy(e)
    ensures Filter(MergeBusy(prev, mapped), NotBusyP()) == Filter(prev, NotBusyP())
    ensures Filter(MergeBusy(prev, mapped), BusyP()) == mapped
    ensures MergeBusy(MergeBusy(prev, mapped), mapped) == MergeBusy(prev, mapped)
  {
    var keep := Filter(prev, NotBusyP());
    FilterConcat(keep, mapped, NotBusyP());
    FilterIdempotent(prev, NotBusyP());
    FilterNone(mapped, NotBusyP());
    FilterConcat(keep, mapped, BusyP());
    FilterNone(keep, BusyP());
    FilterAll(mapped, BusyP());
  }

  // ---------- imports ----------

  /** The de-duplication key of an event with a valid start: its start
      instant and its title. */
  function Keys(events: seq<Event>): set<(Instant, string)> {
    set e | e in events && e.start.At? :: (e.start.ms, e.title)
  }

  /** The imported events to keep: those with a key not in `keys`. */
  function NewKey(keys: set<(Instant, string)>): Event -> bool {
    (e: Event) => e.start.At? && (e.start.ms, e.title) !in keys
  }

  predicate AllStartsValid(events: seq<Event>) {
    forall e :: e in events ==> e.start.At?
  }

  /** The state update of the file import: appends the imported events whose
      key is not yet in the list. Writing the key of an event with an invalid
      start throws (`None`). */
  function MergeImported(prev: seq<Event>, imported: seq<Event>): (r: Option<seq<Event>>)
    ensures r.Some? <==> AllStartsValid(prev) && AllStartsValid(imported)
    ensures r.Some? ==> |prev| <= |r.value| && r.value[..|prev|] == prev
    ensures r.Some? ==> forall e :: e in r.value[|prev|..] <==>
                          e in imported && (e.start.ms, e.title) !in Keys(prev)
    ensures r.Some? ==> r.value[|prev|..] == Filter(imported, NewKey(Keys(prev)))
    ensures r.Some? ==> Subsequence(r.value[|prev|..], imported)
  {
    if AllStartsValid(prev) && AllStartsValid(imported) then
      var added := Filter(imported, NewKey(Keys(prev)));
      assert (prev + added)[|prev|..] == added;
      FilterSubsequence(imported, NewKey(Keys(prev)));
      Some(prev + added)
    else None
  }

  /** Importing the same events a second time adds nothing. */
  lemma MergeImportedTwice(prev: seq<Event>, imported: seq<Event>)
    requires MergeImported(prev, imported).Some?
    ensures MergeImported(MergeImported(prev, imported).value, imported)
         == MergeImported(prev, imported)
  {
    var once := MergeImported(prev, imported).value;
    var added := once[|prev|..];
    assert once == prev + added;
    forall e | e in once ensures e.start.At? {
      if e !in prev { assert e in added; }
    }
    forall e | e in imported ensures (e.start.ms, e.title) in Keys(once) {
      if (e.start.ms, e.title) !in Keys(prev) {
        assert e in added;
      }
    }
    FilterNone(imported, NewKey(Keys(once)));
    assert once + [] == once;
  }
}
