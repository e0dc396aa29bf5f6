/**
 * The calendar's iCalendar reader: `BEGIN:VEVENT` ... `END:VEVENT` blocks
 * with `SUMMARY`, `DTSTART` and `DTEND` property lines (a subset of the
 * VEVENT component of RFC 5545, section 3.6.1, without line unfolding,
 * parameters or time zones).
 */
module CalendarIcs {
  import opened Wrappers
  import opened Strings
  import opened Numbers
  import opened Time
  import opened CalendarEvents

  // ---------- date values ----------

  /** `+x - 1`, where `NaN - 1` is `NaN`. */
  function Minus1(x: Option<int>): Option<int> {
    if x.Some? then Some(x.value - 1) else None
  }

  /** `v.replace(/Z$/, "")`: one trailing "Z" removed. */
  function StripZ(v: string): (r: string)
    ensures r == v || (v == r + "Z")
  {
    if |v| > 0 && v[|v| - 1] == 'Z' then v[..|v| - 1] else v
  }

  /** `icsDateToJs(v)`: a missing or empty value is the current time `now`;
      an eight-character value is local midnight of `YYYYMMDD`; anything else
      is read as `YYYYMMDDTHHMMSS` in UTC, a trailing "Z" ignored and a missing
      or non-numeric time part counting as 0. A non-numeric date part gives an
      invalid date. */
  function IcsDateToJs(z: Zone, now: Instant, v: Option<string>): Date {
    if v.None? || v.value == "" then At(now)
    else if |v.value| == 8 then
      var s := v.value;
      LocalDate(z, ToNumber(s[0..4]), Minus1(ToNumber(s[4..6])), ToNumber(s[6..8]))
    else IsoDate(StripZ(v.value))
  }

  /** `YYYYMMDDTHHMMSS` read in UTC, a missing or non-numeric time part
      counting as 0. */
  function IsoDate(iso: string): Date {
    UtcDate(ToNumber(Slice(iso, 0, 4)), Minus1(ToNumber(Slice(iso, 4, 6))), ToNumber(Slice(iso, 6, 8)),
            OrZero(ToNumber(Slice(iso, 9, 11))), OrZero(ToNumber(Slice(iso, 11, 13))),
            OrZero(ToNumber(Slice(iso, 13, 15))))
  }

  /** A date-only value is `new Date(y, m - 1, d)` of its three parts, and
      a local midnight when valid. */
  lemma DateOnlyIsMidnight(z: Zone, now: Instant, v: string)
    requires |v| == 8
    ensures IcsDateToJs(z, now, Some(v))
              == LocalDate(z, ToNumber(v[0..4]), Minus1(ToNumber(v[4..6])), ToNumber(v[6..8]))
    ensures var r := IcsDateToJs(z, now, Some(v)); r.At? ==> IsMidnight(z, r.ms)
  {
    var y := ToNumber(v[0..4]);
    var m := Minus1(ToNumber(v[4..6]));
    var d := ToNumber(v[6..8]);
    if LocalDate(z, y, m, d).At? {
      LocalDateIsMidnight(z, y, m, d);
    }
  }

  /** A date-only value whose parts `Number` reads as `y`, `m` (in 1..12)
      and `d` is local midnight of the proleptic Gregorian date `y-m-d`,
      a year below 100 (such as "0099") read as 1900 + y. */
  lemma DateOnlyNamesDate(z: Zone, now: Instant, v: string, y: int, m: int, d: int)
    requires |v| == 8 && 1 <= m <= 12
    requires ToNumber(v[0..4]) == Some(y) && ToNumber(v[4..6]) == Some(m) && ToNumber(v[6..8]) == Some(d)
    ensures var day := DaysFromCivil(FullYear(y), m, d);
      var r := IcsDateToJs(z, now, Some(v));
      r == TimeClip(day * MS_PER_DAY - z.offsetMs) && (r.At? ==> LocalDay(z, r.ms) == day)
  {
    DateOnlyIsMidnight(z, now, v);
    NumberParts(z, ToNumber(v[0..4]), ToNumber(v[4..6]), ToNumber(v[6..8]), y, m, d);
    LocalDateOfCivil(z, IcsDateToJs(z, now, Some(v)), y, m, d);
  }

  /** Substituting the numbers read for the parts of a date. */
  lemma NumberParts(z: Zone, a: Option<int>, b: Option<int>, c: Option<int>, y: int, m: int, d: int)
    requires a == Some(y) && b == Some(m) && c == Some(d)
    ensures LocalDate(z, a, Minus1(b), c) == LocalDate(z, Some(y), Some(m - 1), Some(d))
  {
  }

  /** A trailing "Z" makes no difference to a date-time value. */
  lemma TrailingZIgnored(z: Zone, now: Instant, v: string)
    requires v != "" && v[|v| - 1] != 'Z' && |v| != 7 && |v| != 8
    ensures IcsDateToJs(z, now, Some(v + "Z")) == IcsDateToJs(z, now, Some(v))
  {
    assert StripZ(v + "Z") == v by {
      assert (v + "Z")[..|v + "Z"| - 1] == v;
    }
  }

  /** A date-time value without its time part is midnight UTC of its date. */
  lemma MissingTimeIsZero(z: Zone, now: Instant, v: string)
    requires v != "" && |v| != 8 && |StripZ(v)| <= 9
    ensures var iso := StripZ(v);
      IcsDateToJs(z, now, Some(v))
        == UtcDate(ToNumber(Slice(iso, 0, 4)), Minus1(ToNumber(Slice(iso, 4, 6))), ToNumber(Slice(iso, 6, 8)), 0, 0, 0)
  {
    var iso := StripZ(v);
    assert Slice(iso, 9, 11) == "" && Slice(iso, 11, 13) == "" && Slice(iso, 13, 15) == "";
    assert ToNumber("") == Some(0);
  }

  // ---------- the line reader ----------

  /** The properties read so far in the open block. */
  datatype Pending = Pending(summary: Option<string>, dtstart: Option<Date>, dtend: Option<Date>)

  const EMPTY: Pending := Pending(None, None, None)

  /** The events produced so far and the open block, if any. */
  datatype IcsState = IcsState(events: seq<Event>, current: Option<Pending>)

  /** `line.split(":")[1]`, which is `undefined` without a colon. */
  function ValueOf(line: string): Option<string> {
    var parts := Split(line, ':');
    if |parts| > 1 then Some(parts[1]) else None
  }

  /** The event of a closed block with a start: untitled blocks are
      "Untitled", a block without an end lasts one hour, and none is all-day. */
  function Emit(p: Pending, id: string): (e: Event)
    requires p.dtstart.Some?
    ensures e.id == id && e.source == Import && !e.allDay && e.start == p.dtstart.value
    ensures e.title == (if p.summary.Some? && p.summary.value != "" then p.summary.value else "Untitled")
    ensures e.end == (if p.dtend.Some? then p.dtend.value else AddMs(p.dtstart.value, MS_PER_HOUR))
  {
    Event(id,
          if p.summary.Some? && p.summary.value != "" then p.summary.value else "Untitled",
          p.dtstart.value,
          if p.dtend.Some? then p.dtend.value else AddMs(p.dtstart.value, MS_PER_HOUR),
          "", Import, false, None)
  }

  /** A property line inside a block. */
  function ReadProperty(z: Zone, now: Instant, c: Pending, line: string): Pending {
    var c1 := if StartsWith(line, "SUMMARY:") then c.(summary := Some(line[8..])) else c;
    var c2 := if StartsWith(line, "DTSTART") then c1.(dtstart := Some(IcsDateToJs(z, now, ValueOf(line)))) else c1;
    if StartsWith(line, "DTEND") then c2.(dtend := Some(IcsDateToJs(z, now, ValueOf(line)))) else c2
  }

  /** One line of the file. Each event takes the id `newId(k)`, `k` the
      number of events before it. */
  function IcsStep(z: Zone, now: Instant, newId: nat -> string, st: IcsState, raw: string): IcsState {
    var line := Trim(raw);
    if line == "BEGIN:VEVENT" then IcsState(st.events, Some(EMPTY))
    else if line == "END:VEVENT" then
      if st.current.Some? && st.current.value.dtstart.Some?
      then IcsState(st.events + [Emit(st.current.value, newId(|st.events|))], None)
      else IcsState(st.events, None)
    else if st.current.Some? then IcsState(st.events, Some(ReadProperty(z, now, st.current.value, line)))
    else st
  }

  function IcsRun(z: Zone, now: Instant, newId: nat -> string, st: IcsState, lines: seq<string>): IcsState
    decreases |lines|
  {
    if lines == [] then st else IcsRun(z, now, newId, IcsStep(z, now, newId, st, lines[0]), lines[1..])
  }

  /** `parseICS(text)`: the lines are split at line feeds; a carriage return
      before a line feed is removed by the trim of each line. */
  function ParsedEvents(z: Zone, now: Instant, newId: nat -> string, text: string): seq<Event> {
    IcsRun(z, now, newId, IcsState([], None), Split(text, '\n')).events
  }

  lemma {:induction false} IcsRunConcat(z: Zone, now: Instant, newId: nat -> string, st: IcsState, a: seq<string>, b: seq<string>)
    ensures IcsRun(z, now, newId, st, a + b) == IcsRun(z, now, newId, IcsRun(z, now, newId, st, a), b)
    decreases |a|
  {
    if a == [] {
      assert a + b == b;
    } else {
      assert (a + b)[1..] == a[1..] + b;
      IcsRunConcat(z, now, newId, IcsStep(z, now, newId, st, a[0]), a[1..], b);
    }
  }

  /** Every event read is an imported, timed event with a title. */
  lemma {:induction false} IcsRunEvents(z: Zone, now: Instant, newId: nat -> string, st: IcsState, lines: seq<string>)
    requires forall e :: e in st.events ==> e.source == Import && !e.allDay && e.title != ""
    ensures st.events <= IcsRun(z, now, newId, st, lines).events
    ensures forall e :: e in IcsRun(z, now, newId, st, lines).events ==>
              e.source == Import && !e.allDay && e.title != ""
    decreases |lines|
  {
    if lines != [] {
      var next := IcsStep(z, now, newId, st, lines[0]);
      IcsStepEvents(z, now, newId, st, lines[0]);
      IcsRunEvents(z, now, newId, next, lines[1..]);
    }
  }

  lemma IcsStepEvents(z: Zone, now: Instant, newId: nat -> string, st: IcsState, raw: string)
    requires forall e :: e in st.events ==> e.source == Import && !e.allDay && e.title != ""
    ensures st.events <= IcsStep(z, now, newId, st, raw).events
    ensures forall e :: e in IcsStep(z, now, newId, st, raw).events ==>
              e.source == Import && !e.allDay && e.title != ""
  {
    var next := IcsStep(z, now, newId, st, raw);
    var line := Trim(raw);
    if line != "BEGIN:VEVENT" && line == "END:VEVENT" && st.current.Some? && st.current.value.dtstart.Some? {
      var e := Emit(st.current.value, newId(|st.events|));
      assert next.events == st.events + [e];
      forall x | x in next.events ensures x.source == Import && !x.allDay && x.title != "" {
        if x != e {
          assert x in st.events;
        }
      }
    } else {
      assert next.events == st.events;
    }
  }

  predicate IsBegin(raw: string) { Trim(raw) == "BEGIN:VEVENT" }
  predicate IsEnd(raw: string) { Trim(raw) == "END:VEVENT" }

  /** Lines outside a block are ignored, up to the next `BEGIN:VEVENT`. */
  lemma {:induction false} OutsideLinesIgnored(z: Zone, now: Instant, newId: nat -> string, st: IcsState, lines: seq<string>)
    requires st.current.None?
    requires forall i :: 0 <= i < |lines| ==> !IsBegin(lines[i])
    ensures IcsRun(z, now, newId, st, lines) == IcsState(st.events, None)
  {
    if lines != [] {
      OutsideLinesIgnored(z, now, newId, IcsStep(z, now, newId, st, lines[0]), lines[1..]);
    }
  }

  /** The properties read from the lines of a block body. */
  function ReadBody(z: Zone, now: Instant, c: Pending, body: seq<string>): Pending
    decreases |body|
  {
    if body == [] then c else ReadBody(z, now, ReadProperty(z, now, c, Trim(body[0])), body[1..])
  }

  predicate PlainBody(body: seq<string>) {
    forall i :: 0 <= i < |body| ==> !IsBegin(body[i]) && !IsEnd(body[i])
  }

  lemma {:induction false} RunBody(z: Zone, now: Instant, newId: nat -> string, events: seq<Event>, c: Pending, body: seq<string>)
    requires PlainBody(body)
    ensures IcsRun(z, now, newId, IcsState(events, Some(c)), body)
         == IcsState(events, Some(ReadBody(z, now, c, body)))
    decreases |body|
  {
    if body != [] {
      RunBody(z, now, newId, events, ReadProperty(z, now, c, Trim(body[0])), body[1..]);
    }
  }

  /** A block adds the event described by its body when the body has a
      start, and nothing otherwise. */
  lemma ReadBlock(z: Zone, now: Instant, newId: nat -> string, st: IcsState, begin: string, body: seq<string>, end: string)
    requires IsBegin(begin) && PlainBody(body) && IsEnd(end)
    ensures var p := ReadBody(z, now, EMPTY, body);
      IcsRun(z, now, newId, st, [begin] + body + [end])
        == IcsState(st.events + (if p.dtstart.Some? then [Emit(p, newId(|st.events|))] else []), None)
  {
    var s1 := IcsStep(z, now, newId, st, begin);
    assert s1 == IcsState(st.events, Some(EMPTY));
    IcsRunConcat(z, now, newId, st, [begin] + body, [end]);
    IcsRunConcat(z, now, newId, st, [begin], body);
    assert IcsRun(z, now, newId, st, [begin]) == s1;
    RunBody(z, now, newId, st.events, EMPTY, body);
    var s2 := IcsState(st.events, Some(ReadBody(z, now, EMPTY, body)));
    assert IcsRun(z, now, newId, s2, [end]) == IcsStep(z, now, newId, s2, end);
  }

  /** The body keeps whatever start it had when no line starts with "DTSTART". */
  lemma {:induction false} BodyWithoutStart(z: Zone, now: Instant, c: Pending, body: seq<string>)
    requires forall i :: 0 <= i < |body| ==> !StartsWith(Trim(body[i]), "DTSTART")
    ensures ReadBody(z, now, c, body).dtstart == c.dtstart
    decreases |body|
  {
    if body != [] {
      BodyWithoutStart(z, now, ReadProperty(z, now, c, Trim(body[0])), body[1..]);
    }
  }

  /** A block without a `DTSTART` line is dropped. */
  lemma BlockWithoutStartDropped(z: Zone, now: Instant, newId: nat -> string, st: IcsState, begin: string, body: seq<string>, end: string)
    requires IsBegin(begin) && PlainBody(body) && IsEnd(end)
    requires forall i :: 0 <= i < |body| ==> !StartsWith(Trim(body[i]), "DTSTART")
    ensures IcsRun(z, now, newId, st, [begin] + body + [end]) == IcsState(st.events, None)
  {
    ReadBlock(z, now, newId, st, begin, body, end);
    BodyWithoutStart(z, now, EMPTY, body);
  }

  /** A block whose only property is a `DTSTART` gives one event with the
      default title and end (see `Emit`): untitled, one hour long, and not
      all-day even when the value is a date only (a local midnight, by
      `DateOnlyIsMidnight`). */
  lemma StartOnlyBlock(z: Zone, now: Instant, newId: nat -> string, st: IcsState, begin: string, line: string, end: string)
    requires IsBegin(begin) && IsEnd(end)
    requires StartsWith(Trim(line), "DTSTART")
    ensures IcsRun(z, now, newId, st, [begin, line, end])
         == IcsState(st.events + [Emit(Pending(None, Some(IcsDateToJs(z, now, ValueOf(Trim(line)))), None),
                                       newId(|st.events|))], None)
  {
    var t := Trim(line);
    assert t[..7] == "DTSTART";
    assert t[0] == 'D' && t[2] == 'S';
    assert !StartsWith(t, "SUMMARY:") && !StartsWith(t, "DTEND");
    assert !IsBegin(line) && !IsEnd(line);
    assert [begin] + [line] + [end] == [begin, line, end];
    ReadBlock(z, now, newId, st, begin, [line], end);
    var d := IcsDateToJs(z, now, ValueOf(t));
    assert ReadProperty(z, now, EMPTY, t) == Pending(None, Some(d), None);
    assert ReadBody(z, now, EMPTY, [line]) == ReadBody(z, now, ReadProperty(z, now, EMPTY, t), []);
  }

  // ---------- the reader as the page runs it ----------

  /** `parseICS`: one pass over the lines with the open block in `current`. */
  method ParseIcs(z: Zone, now: Instant, newId: nat -> string, text: string) returns (events: seq<Event>)
    ensures events == ParsedEvents(z, now, newId, text)
  {
    var lines := Split(text, '\n');
    events := [];
    var current: Option<Pending> := None;
    var i := 0;
    while i < |lines|
      invariant 0 <= i <= |lines|
      invariant IcsRun(z, now, newId, IcsState([], None), lines)
             == IcsRun(z, now, newId, IcsState(events, current), lines[i..])
    {
      events, current := ReadLine(z, now, newId, events, current, lines[i]);
      assert lines[i..][1..] == lines[i + 1..];
      i := i + 1;
    }
  }

  /** The body of the loop of `parseICS` for one line. */
  method ReadLine(z: Zone, now: Instant, newId: nat -> string, events: seq<Event>, current: Option<Pending>, raw: string)
    returns (events': seq<Event>, current': Option<Pending>)
    ensures IcsState(events', current') == IcsStep(z, now, newId, IcsState(events, current), raw)
  {
    events', current' := events, current;
    var line := Trim(raw);
    if line == "BEGIN:VEVENT" {
      current' := Some(EMPTY);
    } else if line == "END:VEVENT" {
      if current.Some? && current.value.dtstart.Some? {
        events' := events + [Emit(current.value, newId(|events|))];
      }
      current' := None;
    } else if current.Some? {
      var c := current.value;
      if StartsWith(line, "SUMMARY:") { c := c.(summary := Some(line[8..])); }
      if StartsWith(line, "DTSTART") { c := c.(dtstart := Some(IcsDateToJs(z, now, ValueOf(line)))); }
      if StartsWith(line, "DTEND") { c := c.(dtend := Some(IcsDateToJs(z, now, ValueOf(line)))); }
      current' := Some(c);
    }
  }
}
