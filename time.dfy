/**
 * JavaScript `Date` values. An instant is a whole number of milliseconds
 * since 1970-01-01T00:00:00Z; an invalid date (`new Date(NaN)`) is
 * `InvalidDate`. Local time is UTC shifted by a fixed zone offset, so a
 * local day is always 24 hours long.
 */
module Time {
  import opened Wrappers
  import opened Numbers

  const MS_PER_SECOND: int := 1000
  const MS_PER_MINUTE: int := 60_000
  const MS_PER_HOUR: int := 3_600_000
  const MS_PER_DAY: int := 86_400_000
  const MS_PER_WEEK: int := 604_800_000
  /** The largest magnitude of a time value (ECMAScript `TimeClip`). */
  const MAX_TIME: int := 8_640_000_000_000_000

  type Instant = int

  datatype Date = At(ms: Instant) | InvalidDate

  /** The local time zone: local wall-clock time is `utc + offsetMs`. */
  datatype Zone = Zone(offsetMs: int)

  // ---------- local calendar days ----------

  /** The number of the local calendar day holding `t` (day 0 is 1970-01-01). */
  function LocalDay(z: Zone, t: Instant): int {
    (t + z.offsetMs) / MS_PER_DAY
  }

  /** Local midnight of the day holding `t`: `d.setHours(0, 0, 0, 0)`. */
  function StartOfDay(z: Zone, t: Instant): (r: Instant)
    ensures r <= t < r + MS_PER_DAY
    ensures LocalDay(z, r) == LocalDay(z, t)
  {
    LocalDay(z, t) * MS_PER_DAY - z.offsetMs
  }

  /** `d.getDay()`: 0 for Sunday through 6 for Saturday (1970-01-01 was a Thursday). */
  function WeekDay(z: Zone, t: Instant): (r: int)
    ensures 0 <= r < 7
  {
    (LocalDay(z, t) + 4) % 7
  }

  /** `d.getHours() * 60 + d.getMinutes()` */
  function MinuteOfDay(z: Zone, t: Instant): (r: int)
    ensures 0 <= r < 1440
  {
    ((t + z.offsetMs) % MS_PER_DAY) / MS_PER_MINUTE
  }

  predicate IsMidnight(z: Zone, t: Instant) {
    StartOfDay(z, t) == t
  }

  /** Same local year, month and date. */
  predicate SameDay(z: Zone, a: Instant, b: Instant) {
    LocalDay(z, a) == LocalDay(z, b)
  }

  /** `d.setDate(d.getDate() + n)` with a fixed offset: exactly `n` days later. */
  function AddDays(t: Instant, n: int): Instant {
    t + n * MS_PER_DAY
  }

  lemma LocalDayAddDays(z: Zone, t: Instant, n: int)
    ensures LocalDay(z, AddDays(t, n)) == LocalDay(z, t) + n
    ensures StartOfDay(z, AddDays(t, n)) == AddDays(StartOfDay(z, t), n)
  {
    assert (t + n * MS_PER_DAY + z.offsetMs) == (t + z.offsetMs) + n * MS_PER_DAY;
  }

  /** Local midnight of day number `day` is on that day and is a midnight. */
  lemma MidnightOfDay(z: Zone, day: int)
    ensures LocalDay(z, day * MS_PER_DAY - z.offsetMs) == day
    ensures IsMidnight(z, day * MS_PER_DAY - z.offsetMs)
  {
    assert day * MS_PER_DAY - z.offsetMs + z.offsetMs == day * MS_PER_DAY;
  }

  // ---------- comparisons as JavaScript performs them on dates ----------

  /** `a < b`; false when either is invalid (NaN). */
  predicate Lt(a: Date, b: Date) { a.At? && b.At? && a.ms < b.ms }

  /** `a <= b`; false when either is invalid (NaN). */
  predicate Le(a: Date, b: Date) { a.At? && b.At? && a.ms <= b.ms }

  /** ECMAScript `TimeClip`: out-of-range time values are invalid. */
  function TimeClip(t: int): (r: Date)
    ensures -MAX_TIME <= t <= MAX_TIME ==> r == At(t)
  {
    if -MAX_TIME <= t <= MAX_TIME then At(t) else InvalidDate
  }

  /** `new Date(d.getTime() + n)` */
  function AddMs(d: Date, n: int): Date {
    if d.At? then TimeClip(d.ms + n) else InvalidDate
  }

  // ---------- civil dates ----------

  /** The day number of the proleptic Gregorian date `y-m-d`, `m` in 1..12. */
  function DaysFromCivil(y: int, m: int, d: int): int
    requires 1 <= m <= 12
  {
    var y' := if m <= 2 then y - 1 else y;
    var era := y' / 400;
    var yoe := y' - era * 400;
    var mp := if m > 2 then m - 3 else m + 9;
    var doy := (153 * mp + 2) / 5 + d - 1;
    var doe := yoe * 365 + yoe / 4 - yoe / 100 + doy;
    era * 146097 + doe - 719468
  }

  datatype Civil = Civil(year: int, month: int, day: int)

  /** The year of era and the day of that year (counted from March 1) of day
      `doe` of a 400-year era. An era (146097 days) splits into centuries of
      36524 days (the last one a day longer), four-year blocks of 1461 days
      (the last one of a century a day shorter) and years of 365 days (the
      last one of a block a day longer). */
  function SplitEra(doe: int): (r: (int, int))
    requires 0 <= doe <= 146096
    ensures 0 <= r.0 <= 399 && 0 <= r.1 <= 365
    ensures doe == 365 * r.0 + r.0 / 4 - r.0 / 100 + r.1
  {
    var k := if doe / 36524 < 3 then doe / 36524 else 3;
    var rc := doe - 36524 * k;
    assert 0 <= rc <= 36524;
    var j := rc / 1461;
    var rb := rc - 1461 * j;
    assert 0 <= j <= 24 && 0 <= rb <= 1460;
    var i := if rb / 365 < 3 then rb / 365 else 3;
    var doy := rb - 365 * i;
    var yoe := 100 * k + 4 * j + i;
    assert yoe / 4 == 25 * k + j;
    assert yoe / 100 == k;
    (yoe, doy)
  }

  /** The month (0 for March through 11 for February) and the day of the
      month of day `doy` of a March-based year. */
  function SplitYear(doy: int): (r: (int, int))
    requires 0 <= doy <= 365
    ensures 0 <= r.0 <= 11 && 1 <= r.1 <= 31
    ensures doy == (153 * r.0 + 2) / 5 + r.1 - 1
  {
    var mp := (5 * doy + 2) / 153;
    assert 153 * mp <= 5 * doy + 2 < 153 * mp + 153;
    var d := doy - (153 * mp + 2) / 5 + 1;
    (mp, d)
  }

  /** The proleptic Gregorian date of day number `n`. */
  function CivilFromDays(n: int): (c: Civil)
    ensures 1 <= c.month <= 12 && 1 <= c.day <= 31
    ensures DaysFromCivil(c.year, c.month, c.day) == n
  {
    var z := n + 719468;
    var era := z / 146097;
    var doe := z - era * 146097;
    var (yoe, doy) := SplitEra(doe);
    var y := yoe + era * 400;
    var (mp, d) := SplitYear(doy);
    var m := if mp < 10 then mp + 3 else mp - 9;
    var year := if m <= 2 then y + 1 else y;
    CivilInverse(n, era, doe, yoe, doy, mp, d, year, m);
    Civil(year, m, d)
  }

  /** The steps of `CivilFromDays`, undone by `DaysFromCivil`. */
  lemma CivilInverse(n: int, era: int, doe: int, yoe: int, doy: int, mp: int, d: int, year: int, m: int)
    requires doe == n + 719468 - era * 146097
    requires 0 <= yoe <= 399 && doe == 365 * yoe + yoe / 4 - yoe / 100 + doy
    requires 0 <= mp <= 11 && doy == (153 * mp + 2) / 5 + d - 1
    requires m == if mp < 10 then mp + 3 else mp - 9
    requires year == if m <= 2 then yoe + era * 400 + 1 else yoe + era * 400
    ensures 1 <= m <= 12
    ensures DaysFromCivil(year, m, d) == n
  {
    var y := yoe + era * 400;
    assert (if m <= 2 then year - 1 else year) == y;
    assert y / 400 == era;
    assert (if m > 2 then m - 3 else m + 9) == mp;
  }

  /** ECMAScript `MakeDay(year, month, date)`: the month may lie outside 0..11
      and the date outside the month; both carry over. */
  function MakeDay(year: int, month: int, date: int): int {
    DaysFromCivil(year + month / 12, month % 12 + 1, 1) + date - 1
  }

  /** For a month in 1..12, `MakeDay` of its zero-based month is the day
      number of the date. */
  lemma MakeDayOfCivil(y: int, m: int, d: int)
    requires 1 <= m <= 12
    ensures MakeDay(y, m - 1, d) == DaysFromCivil(y, m, d)
  {
    assert (m - 1) / 12 == 0 && (m - 1) % 12 + 1 == m;
  }

  /** Two-digit years passed to `new Date(y, ...)` and `Date.UTC(y, ...)`
      are read as 1900 + y. */
  function FullYear(y: int): int {
    if 0 <= y <= 99 then 1900 + y else y
  }

  /** `new Date(y, m, d)`: local midnight; a `NaN` part gives an invalid date. */
  function LocalDate(z: Zone, y: Option<int>, m: Option<int>, d: Option<int>): Date {
    if y.Some? && m.Some? && d.Some? then
      TimeClip(MakeDay(FullYear(y.value), m.value, d.value) * MS_PER_DAY - z.offsetMs)
    else InvalidDate
  }

  /** A valid local date is a local midnight. */
  lemma LocalDateIsMidnight(z: Zone, y: Option<int>, m: Option<int>, d: Option<int>)
    requires LocalDate(z, y, m, d).At?
    ensures IsMidnight(z, LocalDate(z, y, m, d).ms)
  {
    var day := MakeDay(FullYear(y.value), m.value, d.value);
    MidnightOfDay(z, day);
  }

  /** `new Date(y, m - 1, d)` for a month `m` in 1..12 is local midnight of
      the date `y-m-d`. */
  lemma LocalDateOfCivil(z: Zone, r: Date, y: int, m: int, d: int)
    requires 1 <= m <= 12 && r == LocalDate(z, Some(y), Some(m - 1), Some(d))
    ensures var day := DaysFromCivil(FullYear(y), m, d);
      r == TimeClip(day * MS_PER_DAY - z.offsetMs) && (r.At? ==> LocalDay(z, r.ms) == day)
  {
    var day := DaysFromCivil(FullYear(y), m, d);
    MakeDayOfCivil(FullYear(y), m, d);
    MidnightOfDay(z, day);
  }

  /** `new Date(Date.UTC(y, m, d, hh, mm, ss))` */
  function UtcDate(y: Option<int>, m: Option<int>, d: Option<int>, hh: int, mi: int, ss: int): Date {
    if y.Some? && m.Some? && d.Some? then
      TimeClip(MakeDay(FullYear(y.value), m.value, d.value) * MS_PER_DAY
               + hh * MS_PER_HOUR + mi * MS_PER_MINUTE + ss * MS_PER_SECOND)
    else InvalidDate
  }

  // ---------- toISOString ----------

  /** `s` left-padded with zeros to at least `n` characters. */
  function PadZeros(s: string, n: nat): (r: string)
    ensures |r| >= n && |r| >= |s|
    decreases n - |s|
  {
    if |s| >= n then s else PadZeros("0" + s, n)
  }

  /** The year as `toISOString` writes it: four digits for 0..9999,
      otherwise a sign and six digits. */
  function IsoYear(y: int): string {
    if 0 <= y <= 9999 then PadZeros(NatToString(y), 4)
    else if y < 0 then "-" + PadZeros(NatToString(-y), 6)
    else "+" + PadZeros(NatToString(y), 6)
  }

  /** The date part `YYYY-MM-DD` of `toISOString`. */
  function IsoDate(c: Civil): string
    requires 1 <= c.month && 1 <= c.day
  {
    IsoYear(c.year) + "-" + Pad2(NatToString(c.month)) + "-" + Pad2(NatToString(c.day))
  }

  /** `new Date(t).toISOString()`: `YYYY-MM-DDTHH:mm:ss.sssZ` in UTC. */
  function IsoString(t: Instant): string {
    var c := CivilFromDays(t / MS_PER_DAY);
    var msOfDay := t % MS_PER_DAY;
    IsoDate(c)
    + "T" + Pad2(NatToString(msOfDay / MS_PER_HOUR))
    + ":" + Pad2(NatToString(msOfDay % MS_PER_HOUR / MS_PER_MINUTE))
    + ":" + Pad2(NatToString(msOfDay % MS_PER_MINUTE / MS_PER_SECOND))
    + "." + PadZeros(NatToString(msOfDay % MS_PER_SECOND), 3) + "Z"
  }

  /** `toISOString` starts with the date. */
  lemma IsoStringStartsWithDate(t: Instant)
    ensures var a := IsoDate(CivilFromDays(t / MS_PER_DAY));
      |IsoString(t)| >= |a| && IsoString(t)[..|a|] == a
  {
  }
}
