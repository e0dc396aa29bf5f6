/**
 * The calendar's date helpers (weeks start on Monday), the "hh:mm" text of
 * the time inputs, and the decoding of a mouse position in a day column
 * into minutes after midnight.
 */
module CalendarDates {
  import opened Wrappers
  import opened Strings
  import opened Numbers
  import opened Time

  // ---------- weeks ----------

  /** Local midnight of the Monday of the week holding `t`. */
  function StartOfWeek(z: Zone, t: Instant): Instant {
    var base := StartOfDay(z, t);
    var day := WeekDay(z, base);
    var diff := if day == 0 then -6 else 1 - day;
    AddDays(base, diff)
  }

  /** `startOfWeek(t)` is a local midnight on a Monday, no later than `t`
      and less than a week earlier; on a Sunday it goes back six days. */
  lemma StartOfWeekProps(z: Zone, t: Instant)
    ensures IsMidnight(z, StartOfWeek(z, t))
    ensures WeekDay(z, StartOfWeek(z, t)) == 1
    ensures StartOfWeek(z, t) <= t < StartOfWeek(z, t) + MS_PER_WEEK
    ensures LocalDay(z, t) - LocalDay(z, StartOfWeek(z, t)) <= 6
    ensures WeekDay(z, t) == 0 ==> StartOfWeek(z, t) == AddDays(StartOfDay(z, t), -6)
  {
    var base := StartOfDay(z, t);
    var day := WeekDay(z, base);
    var diff := if day == 0 then -6 else 1 - day;
    LocalDayAddDays(z, base, diff);
    assert WeekDay(z, t) == day;
  }

  /** There is exactly one Monday midnight in the week ending after `t`:
      any Monday midnight `m` with `m <= t < m + 7 days` is `startOfWeek(t)`. */
  lemma StartOfWeekUnique(z: Zone, t: Instant, m: Instant)
    requires IsMidnight(z, m) && WeekDay(z, m) == 1
    requires m <= t < m + MS_PER_WEEK
    ensures StartOfWeek(z, t) == m
  {
    StartOfWeekProps(z, t);
    var w := StartOfWeek(z, t);
    var dw := LocalDay(z, w);
    var dm := LocalDay(z, m);
    assert w == dw * MS_PER_DAY - z.offsetMs;
    assert m == dm * MS_PER_DAY - z.offsetMs;
    assert (dw + 4) % 7 == 1 && (dm + 4) % 7 == 1;
    assert -7 < dw - dm < 7;
  }

  /** Stepping a Monday midnight by whole weeks gives the week start of the
      result: `prevWeek`/`nextWeek` keep the week start a week start. */
  lemma AddWeeksKeepsWeekStart(z: Zone, w: Instant, n: int)
    requires IsMidnight(z, w) && WeekDay(z, w) == 1
    ensures StartOfWeek(z, AddDays(w, 7 * n)) == AddDays(w, 7 * n)
  {
    var w' := AddDays(w, 7 * n);
    LocalDayAddDays(z, w, 7 * n);
    assert LocalDay(z, w') == LocalDay(z, w) + 7 * n;
    assert IsMidnight(z, w');
    assert WeekDay(z, w') == (LocalDay(z, w) + 4 + 7 * n) % 7 == 1;
    StartOfWeekUnique(z, w', w');
  }

  // ---------- the time inputs ----------

  /** `minsToTime(mins)`: "hh:mm", with hours past 23 written as they are. */
  function MinsToTime(mins: nat): string {
    Pad2(NatToString(mins / 60)) + ":" + Pad2(NatToString(mins % 60))
  }

  /** `formatInputTime(d)`: the local hours and minutes of `d` as "hh:mm". */
  function FormatInputTime(z: Zone, t: Instant): string {
    var hours := MinuteOfDay(z, t) / 60;
    var minutes := MinuteOfDay(z, t) % 60;
    Pad2(NatToString(hours)) + ":" + Pad2(NatToString(minutes))
  }

  /** `parseTimeToDate(base, timeStr)`: local midnight of `base` plus the
      hours and minutes of `timeStr`; an empty string is "00:00", and a part
      that is missing or not a number counts as 0. Hours and minutes past
      their range carry into the following days, as `setHours` does. */
  function ParseTimeToDate(z: Zone, base: Instant, timeStr: string): Instant {
    var parts := Split(if timeStr == "" then "00:00" else timeStr, ':');
    var hh := OrZero(ToNumber(parts[0]));
    var mm := if |parts| > 1 then OrZero(ToNumber(parts[1])) else 0;
    StartOfDay(z, base) + hh * MS_PER_HOUR + mm * MS_PER_MINUTE
  }

  lemma SplitTime(h: nat, m: nat)
    ensures Split(Pad2(NatToString(h)) + ":" + Pad2(NatToString(m)), ':')
         == [Pad2(NatToString(h)), Pad2(NatToString(m))]
  {
    var a := Pad2(NatToString(h));
    var b := Pad2(NatToString(m));
    Pad2Value(h);
    Pad2Value(m);
    assert a + ":" + b == a + [':'] + b;
    SplitAtFirst(a, ':', b, c => c == ':');
    SplitNoSep(b, c => c == ':');
  }

  /** Reading back the text written by `minsToTime(m)` gives `m` minutes
      after local midnight of the base day. */
  lemma ParseMinsToTime(z: Zone, base: Instant, m: nat)
    ensures ParseTimeToDate(z, base, MinsToTime(m)) == StartOfDay(z, base) + m * MS_PER_MINUTE
  {
    SplitTime(m / 60, m % 60);
    NumberOfNatToString(m / 60);
    NumberOfNatToString(m % 60);
  }

  /** `formatInputTime` writes what `minsToTime` writes for the minute of the day. */
  lemma FormatInputTimeIsMinsToTime(z: Zone, t: Instant)
    ensures FormatInputTime(z, t) == MinsToTime(MinuteOfDay(z, t))
  {
  }

  /** The minute of the day of local midnight plus `m` minutes is `m`. */
  lemma MinuteOfDayAfterMidnight(z: Zone, base: Instant, m: nat)
    requires m < 1440
    ensures MinuteOfDay(z, StartOfDay(z, base) + m * MS_PER_MINUTE) == m
    ensures SameDay(z, StartOfDay(z, base) + m * MS_PER_MINUTE, base)
  {
    var t := StartOfDay(z, base) + m * MS_PER_MINUTE;
    assert t + z.offsetMs == LocalDay(z, base) * MS_PER_DAY + m * MS_PER_MINUTE;
    DayParts(t + z.offsetMs, LocalDay(z, base), m);
  }

  /** `u` is `m` minutes into day `d`. */
  lemma DayParts(u: int, d: int, m: nat)
    requires m < 1440 && u == d * MS_PER_DAY + m * MS_PER_MINUTE
    ensures u / MS_PER_DAY == d && u % MS_PER_DAY == m * MS_PER_MINUTE
    ensures (m * MS_PER_MINUTE) / MS_PER_MINUTE == m
  {
  }

  /** A time of day written by `minsToTime` and read by `parseTimeToDate`
      shows the same text in the time input again. */
  lemma FormatParseRoundTrip(z: Zone, base: Instant, m: nat)
    requires m < 1440
    ensures FormatInputTime(z, ParseTimeToDate(z, base, MinsToTime(m))) == MinsToTime(m)
  {
    ParseMinsToTime(z, base, m);
    FormatAfterMidnight(z, base, ParseTimeToDate(z, base, MinsToTime(m)), m);
  }

  /** `m` minutes after local midnight shows as `minsToTime(m)`. */
  lemma FormatAfterMidnight(z: Zone, base: Instant, t: Instant, m: nat)
    requires m < 1440
    requires t == StartOfDay(z, base) + m * MS_PER_MINUTE
    ensures FormatInputTime(z, t) == MinsToTime(m)
  {
    MinuteOfDayAfterMidnight(z, base, m);
    FormatInputTimeIsMinsToTime(z, t);
  }

  /** Editing an event and saving it unchanged keeps its start up to the
      minute: `parseTimeToDate(day, formatInputTime(start))` is `start`
      with its seconds and milliseconds dropped. */
  lemma ParseFormatRoundTrip(z: Zone, base: Instant, t: Instant)
    requires SameDay(z, base, t)
    ensures ParseTimeToDate(z, base, FormatInputTime(z, t)) == t - (t + z.offsetMs) % MS_PER_MINUTE
  {
    var m := MinuteOfDay(z, t);
    FormatInputTimeIsMinsToTime(z, t);
    ParseMinsToTime(z, base, m);
    assert StartOfDay(z, base) == StartOfDay(z, t);
    MinuteDecomposition(z, t);
  }

  /** An instant is its local midnight, plus its whole minutes, plus the rest. */
  lemma MinuteDecomposition(z: Zone, t: Instant)
    ensures t == StartOfDay(z, t) + MinuteOfDay(z, t) * MS_PER_MINUTE + (t + z.offsetMs) % MS_PER_MINUTE
  {
    var u := t + z.offsetMs;
    var d := LocalDay(z, t);
    var r := u % MS_PER_DAY;
    assert u == d * MS_PER_DAY + r;
    assert d * MS_PER_DAY == (d * 1440) * MS_PER_MINUTE;
    MinuteShift(d * 1440, r);
    assert r == (r / MS_PER_MINUTE) * MS_PER_MINUTE + r % MS_PER_MINUTE;
  }

  /** Whole minutes do not change the milliseconds past the minute. */
  lemma MinuteShift(k: int, r: int)
    ensures (k * MS_PER_MINUTE + r) % MS_PER_MINUTE == r % MS_PER_MINUTE
  {
  }

  /** The end time of the event form: a non-later end is replaced by the
      start plus 30 minutes. */
  function FixEnd(start: Instant, candidate: Instant): (end: Instant)
    ensures end > start
    ensures candidate > start ==> end == candidate
    ensures candidate <= start ==> end == start + 30 * MS_PER_MINUTE
  {
    if candidate <= start then start + 30 * MS_PER_MINUTE else candidate
  }

  /** Start and end of the event described by the form: an all-day event
      starts at the selected day and nominally lasts an hour; a timed one
      takes the two time inputs on the selected day. */
  function FormTimes(z: Zone, day: Instant, allDay: bool, startTime: string, endTime: string): (r: (Instant, Instant))
    ensures r.0 < r.1
    ensures allDay ==> r == (day, day + MS_PER_HOUR)
    ensures !allDay ==> r.0 == ParseTimeToDate(z, day, startTime)
    ensures !allDay ==> r.1 == FixEnd(r.0, ParseTimeToDate(z, day, endTime))
  {
    var start := if allDay then day else ParseTimeToDate(z, day, startTime);
    var candidate := if allDay then day + MS_PER_HOUR else ParseTimeToDate(z, day, endTime);
    (start, FixEnd(start, candidate))
  }

  // ---------- pixels to minutes ----------

  /** `roundMinutes(num / den)` with the default step of 15: `Math.round`
      of the quotient by 15, times 15. */
  function RoundMinutes(num: int, den: int): (r: int)
    requires den > 0
    ensures r % 15 == 0
    ensures -15 * den <= 2 * (num - r * den) < 15 * den
  {
    var n := 2 * num + 15 * den;
    var d := 30 * den;
    var q := n / d;
    assert n == d * q + n % d && 0 <= n % d < d;
    assert 2 * (num - 15 * q * den) == n - d * q - 15 * den;
    q * 15
  }

  /** The bounds above single out the rounded value: it is the multiple of
      15 nearest to `num / den`, with halves going up. */
  lemma RoundMinutesUnique(num: int, den: int, r': int)
    requires den > 0
    requires r' % 15 == 0 && -15 * den <= 2 * (num - r' * den) < 15 * den
    ensures r' == RoundMinutes(num, den)
  {
    var r := RoundMinutes(num, den);
    var k := r / 15;
    var k' := r' / 15;
    assert r == 15 * k && r' == 15 * k';
    MulSub(r, r', den);
    assert -15 * den < r * den - r' * den < 15 * den;
    assert r - r' == 15 * (k - k');
    Mul15(k - k', den);
    MulWithin(k - k', 15 * den);
  }

  lemma MulSub(x: int, y: int, d: int)
    ensures x * d - y * d == (x - y) * d
  {
  }

  lemma Mul15(k: int, d: int)
    ensures (15 * k) * d == k * (15 * d)
  {
  }

  lemma MulWithin(a: int, d: int)
    requires d > 0 && -d < a * d < d
    ensures a == 0
  {
  }

  /** The height in pixels of a day column: 48 pixels per hour. */
  const COLUMN_HEIGHT: int := 48 * 24

  /** The minute of the day under vertical offset `y` (pixels from the top of
      a day column), clamped to the column and rounded to 15 minutes. */
  function PixelToMinutes(y: int): (r: int)
    ensures 0 <= r <= 1440 && r % 15 == 0
    ensures var c := if y < 0 then 0 else if y > COLUMN_HEIGHT - 2 then COLUMN_HEIGHT - 2 else y;
            r == (c + 6) / 12 * 15
  {
    var clamped := if y < 0 then 0 else if y > COLUMN_HEIGHT - 2 then COLUMN_HEIGHT - 2 else y;
    RoundPixels(clamped);
    RoundMinutes(clamped * 1440, COLUMN_HEIGHT)
  }

  /** At 48 pixels per hour, `c` pixels round to the nearest quarter hour. */
  lemma RoundPixels(c: int)
    requires 0 <= c <= COLUMN_HEIGHT - 2
    ensures RoundMinutes(c * 1440, COLUMN_HEIGHT) == (c + 6) / 12 * 15
  {
    assert 2 * (c * 1440) + 15 * COLUMN_HEIGHT == 2880 * (c + 6);
    assert 30 * COLUMN_HEIGHT == 34560;
    assert (2880 * (c + 6)) / 34560 == (c + 6) / 12;
  }

  /** The bottom of a column decodes to minute 1440, which `minsToTime`
      writes as "24:00" and `parseTimeToDate` reads as midnight of the next day. */
  lemma DragBottomIsNextMidnight(z: Zone, base: Instant, y: int)
    requires y >= COLUMN_HEIGHT - 6
    ensures PixelToMinutes(y) == 1440
    ensures MinsToTime(PixelToMinutes(y)) == "24:00"
    ensures ParseTimeToDate(z, base, MinsToTime(PixelToMinutes(y))) == AddDays(StartOfDay(z, base), 1)
    ensures !SameDay(z, ParseTimeToDate(z, base, MinsToTime(PixelToMinutes(y))), base)
  {
    assert PixelToMinutes(y) == 1440;
    MidnightText();
    ParseMinsToTime(z, base, 1440);
    LocalDayAddDays(z, StartOfDay(z, base), 1);
  }

  lemma MidnightText()
    ensures MinsToTime(1440) == "24:00"
  {
    MinsToTimeParts(1440, 24, 0);
    TwentyFour();
    PadZero();
    assert "24" + ":" + "00" == "24:00";
  }

  lemma MinsToTimeParts(m: nat, h: nat, r: nat)
    requires m / 60 == h && m % 60 == r
    ensures MinsToTime(m) == Pad2(NatToString(h)) + ":" + Pad2(NatToString(r))
  {
  }

  lemma TwentyFour()
    ensures Pad2(NatToString(24)) == "24"
  {
    assert DigitChar(2) == '2' && DigitChar(4) == '4';
    assert NatToString(24) == NatToString(2) + [DigitChar(4)];
  }

  lemma PadZero()
    ensures Pad2(NatToString(0)) == "00"
  {
    assert NatToString(0) == [DigitChar(0)] == "0";
  }
}
