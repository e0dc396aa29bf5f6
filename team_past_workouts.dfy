/**
 * The team's list of past workouts: the labels of each row (date, distance,
 * duration), the newest-first order, and the count and totals in the
 * header.
 */
module TeamPastWorkouts {
  import opened Wrappers
  import opened Strings
  import opened Numbers
  import opened Time
  import opened Folds
  import opened Sorting
  import opened FixedText
  import opened WorkoutRecords

  // ---------- the date of a row ----------

  /** `formatDate(d)`: "?" for a missing date, the first ten characters of
      the text when it is not a date, and otherwise the UTC calendar date
      that `toISOString()` starts with. */
  function FormatDate(d: RawDate): (r: string)
    ensures !DateGiven(d) ==> r == "?"
    ensures DateGiven(d) && DateValue(d).None? ==>
              r <= d.text && |r| == (if |d.text| < 10 then |d.text| else 10)
    ensures |r| <= 10
  {
    if !DateGiven(d) then "?"
    else match DateValue(d)
      case None => Slice(d.text, 0, 10)
      case Some(t) => Slice(IsoString(t), 0, 10)
  }

  /** Reads `YYYY-MM-DD` as a day number. */
  function ReadIsoDay(s: string): Option<int> {
    if |s| == 10 && s[4] == '-' && s[7] == '-'
       && AllDigits(s[..4]) && AllDigits(s[5..7]) && AllDigits(s[8..])
       && 1 <= DigitsValue(s[5..7]) <= 12
    then Some(DaysFromCivil(DigitsValue(s[..4]), DigitsValue(s[5..7]), DigitsValue(s[8..])))
    else None
  }

  /** A numeral below 100, padded to two digits. */
  lemma Pad2Short(n: nat)
    requires n < 100
    ensures |Pad2(NatToString(n))| == 2
  {
    NatToStringShort(n, 2);
  }

  /** A date of the years 0 to 9999 is written as `YYYY-MM-DD`, and the
      text names its day. */
  lemma IsoDateReads(c: Civil)
    requires 0 <= c.year <= 9999 && 1 <= c.month <= 12 && 1 <= c.day <= 31
    ensures |IsoDate(c)| == 10
    ensures ReadIsoDay(IsoDate(c)) == Some(DaysFromCivil(c.year, c.month, c.day))
  {
    var y := NatToString(c.year);
    NatToStringShort(c.year, 4);
    PadZerosValue(y, 4);
    var a := PadZeros(y, 4);
    var b := Pad2(NatToString(c.month));
    var d := Pad2(NatToString(c.day));
    Pad2Short(c.month);
    Pad2Short(c.day);
    Pad2Value(c.month);
    Pad2Value(c.day);
    var s := IsoDate(c);
    assert s == a + "-" + b + "-" + d;
    assert s[..4] == a && s[5..7] == b && s[8..] == d;
  }

  /** Where the instant's year has four digits, the label of a row names the
      UTC day of its date: `toISOString` counts days from the epoch in UTC. */
  lemma FormatDateDay(d: RawDate, t: Instant)
    requires DateGiven(d) && d.parsed == Some(t)
    requires 0 <= CivilFromDays(t / MS_PER_DAY).year <= 9999
    ensures ReadIsoDay(FormatDate(d)) == Some(t / MS_PER_DAY)
  {
    var c := CivilFromDays(t / MS_PER_DAY);
    IsoDateReads(c);
    IsoStringStartsWithDate(t);
    SliceOfPrefix(IsoString(t), IsoDate(c));
  }

  lemma SliceOfPrefix(s: string, a: string)
    requires |a| == 10 && |s| >= 10 && s[..10] == a
    ensures Slice(s, 0, 10) == a
  {
  }

  // ---------- the distance of a row ----------

  /** `formatDistance(n)`: nothing unless the distance is a positive number;
      metres below 1000, kilometres with two decimals from there on. */
  function FormatDistance(n: Option<int>): Option<string> {
    if n.None? || n.value <= 0 then None
    else if n.value >= 1000 then Some(Fixed(n.value, 1000, 2) + " km")
    else Some(NatToString(n.value) + " m")
  }

  /** Reads a distance label back in metres (from hundredths of a
      kilometre for a "km" label). */
  function ReadDistance(s: string): Option<int> {
    var parts := Split(s, ' ');
    if |parts| != 2 then None
    else if parts[1] == "m" && parts[0] != "" && AllDigits(parts[0]) then Some(DigitsValue(parts[0]))
    else if parts[1] == "km" then
      match ReadFixed(parts[0], 2)
      case None => None
      case Some(h) => Some(10 * h)
    else None
  }

  /** A number and a unit, split at the space between them. */
  lemma SplitUnit(a: string, unit: string)
    requires forall i :: 0 <= i < |a| ==> a[i] != ' '
    requires forall i :: 0 <= i < |unit| ==> unit[i] != ' '
    ensures Split(a + " " + unit, ' ') == [a, unit]
  {
    assert a + " " + unit == a + [' '] + unit;
    SplitAtFirst(a, ' ', unit, c => c == ' ');
    SplitNoSep(unit, c => c == ' ');
  }

  /** A distance is shown only when it is a positive number. */
  lemma DistanceShown(n: Option<int>)
    ensures FormatDistance(n).Some? <==> n.Some? && n.value > 0
  {
  }

  /** Below a kilometre the label reads back as the distance itself. */
  lemma DistanceMetres(n: int)
    requires 0 < n < 1000
    ensures ReadDistance(FormatDistance(Some(n)).value) == Some(n)
  {
    var a := NatToString(n);
    assert a + " m" == a + " " + "m";
    SplitUnit(a, "m");
  }

  /** From a kilometre on, the label reads back within 5 metres of the
      distance: the nearest ten metres, a tie going up. */
  lemma DistanceKilometres(n: int)
    requires n >= 1000
    ensures ReadDistance(FormatDistance(Some(n)).value).Some?
    ensures -5 <= n - ReadDistance(FormatDistance(Some(n)).value).value < 5
  {
    var a := Fixed(n, 1000, 2);
    FixedChars(n, 1000, 2);
    assert a + " km" == a + " " + "km";
    SplitUnit(a, "km");
    FixedRoundTrip(n, 1000, 2);
    assert Pow10(2) == 100;
  }

  // ---------- the duration of a row ----------

  /** `formatDuration(n)`: nothing unless the duration is a positive number;
      "n min" below an hour, else whole hours and the remaining minutes,
      the minutes left out when there are none. */
  function FormatDuration(n: Option<int>): Option<string> {
    if n.None? || n.value <= 0 then None
    else if n.value < 60 then Some(NatToString(n.value) + " min")
    else
      var h := n.value / 60;
      var r := n.value % 60;
      Some(if r != 0 then NatToString(h) + "h " + NatToString(r) + "m" else NatToString(h) + "h")
  }

  /** The number in front of `unit`, when `s` is digits followed by `unit`. */
  function Before(s: string, unit: string): Option<nat> {
    if |s| > |unit| && s[|s| - |unit|..] == unit && AllDigits(s[..|s| - |unit|])
    then Some(DigitsValue(s[..|s| - |unit|]))
    else None
  }

  /** Reads a duration label back in minutes. */
  function ReadDuration(s: string): Option<int> {
    var parts := Split(s, ' ');
    if |parts| == 2 && parts[1] == "min" && parts[0] != "" && AllDigits(parts[0]) then Some(DigitsValue(parts[0]))
    else if |parts| == 1 && Before(parts[0], "h").Some? then Some(60 * Before(parts[0], "h").value)
    else if |parts| == 2 && Before(parts[0], "h").Some? && Before(parts[1], "m").Some? then
      Some(60 * Before(parts[0], "h").value + Before(parts[1], "m").value)
    else None
  }

  lemma BeforeUnit(n: nat, unit: string)
    requires unit != "" && ' ' !in unit && forall i :: 0 <= i < |unit| ==> !IsDigit(unit[i])
    ensures Before(NatToString(n) + unit, unit) == Some(n)
    ensures forall i :: 0 <= i < |NatToString(n) + unit| ==> (NatToString(n) + unit)[i] != ' '
  {
    var s := NatToString(n) + unit;
    assert s[|s| - |unit|..] == unit && s[..|s| - |unit|] == NatToString(n);
    forall i | 0 <= i < |s| ensures s[i] != ' ' {
      if i >= |NatToString(n)| {
        assert s[i] == unit[i - |NatToString(n)|];
      }
    }
  }

  /** Hours and minutes, each before its unit, separated by a space. */
  lemma ReadTwoParts(a: string, b: string, h: nat, r: nat)
    requires Before(a, "h") == Some(h) && Before(b, "m") == Some(r)
    requires forall i :: 0 <= i < |a| ==> a[i] != ' '
    requires forall i :: 0 <= i < |b| ==> b[i] != ' '
    ensures ReadDuration(a + " " + b) == Some(60 * h + r)
  {
    SplitUnit(a, b);
    assert a[|a| - 1] == 'h';
  }

  lemma ReadMinutesLabel(v: nat)
    ensures ReadDuration(NatToString(v) + " min") == Some(v)
  {
    assert NatToString(v) + " min" == NatToString(v) + " " + "min";
    SplitUnit(NatToString(v), "min");
  }

  lemma ReadHoursLabel(h: nat)
    ensures ReadDuration(NatToString(h) + "h") == Some(60 * h)
  {
    BeforeUnit(h, "h");
    SplitNoSep(NatToString(h) + "h", c => c == ' ');
  }

  lemma ReadHoursMinutesLabel(h: nat, r: nat)
    ensures ReadDuration(NatToString(h) + "h " + NatToString(r) + "m") == Some(60 * h + r)
  {
    BeforeUnit(h, "h");
    BeforeUnit(r, "m");
    assert NatToString(h) + "h " + NatToString(r) + "m" == (NatToString(h) + "h") + " " + (NatToString(r) + "m");
    ReadTwoParts(NatToString(h) + "h", NatToString(r) + "m", h, r);
  }

  /** A duration is shown exactly when it is a positive number of minutes,
      and its label reads back as that number: no two durations share a
      label. */
  lemma DurationRoundTrip(n: Option<int>)
    ensures FormatDuration(n).Some? <==> n.Some? && n.value > 0
    ensures FormatDuration(n).Some? ==> ReadDuration(FormatDuration(n).value) == n
  {
    if n.Some? && n.value > 0 {
      var v := n.value;
      var h := v / 60;
      var r := v % 60;
      if v < 60 {
        assert FormatDuration(n) == Some(NatToString(v) + " min");
        ReadMinutesLabel(v);
      } else if r != 0 {
        assert FormatDuration(n) == Some(NatToString(h) + "h " + NatToString(r) + "m");
        ReadHoursMinutesLabel(h, r);
      } else {
        assert FormatDuration(n) == Some(NatToString(h) + "h");
        ReadHoursLabel(h);
      }
    }
  }

  lemma DurationInjective(a: Option<int>, b: Option<int>)
    requires FormatDuration(a).Some? && FormatDuration(a) == FormatDuration(b)
    ensures a == b
  {
    DurationRoundTrip(a);
    DurationRoundTrip(b);
  }

  // ---------- order ----------

  /** How old a workout's date is, the key by which the comparator
      `new Date(b.date) - new Date(a.date)` orders them: newest first. */
  function Age(w: Workout): int {
    if DateValue(w.date).Some? then -DateValue(w.date).value else 0
  }

  ghost predicate AllDated(ws: seq<Workout>) {
    forall k :: 0 <= k < |ws| ==> DateValue(ws[k].date).Some?
  }

  /** `sortedWorkouts`: a value that is not an array gives no rows, an
      unsorted list is kept as it is, and a sorted one goes newest first,
      workouts of the same instant keeping their order. When a date is
      invalid the comparator yields `NaN` and the order is up to the engine:
      `None`. */
  function SortedWorkouts(workouts: Option<seq<Workout>>, sort: bool): Option<seq<Workout>> {
    if workouts.None? then Some([])
    else if !sort then workouts
    else if forall k :: 0 <= k < |workouts.value| ==> DateValue(workouts.value[k].date).Some?
    then Some(SortByKey(workouts.value, Age))
    else None
  }

  /** With every date valid, the sorted rows are the same workouts, each
      no older than the next, and workouts of the same instant keep their
      order. */
  lemma NewestFirst(ws: seq<Workout>)
    requires AllDated(ws)
    ensures SortedWorkouts(Some(ws), true).Some?
    ensures var r := SortedWorkouts(Some(ws), true).value;
      && multiset(r) == multiset(ws)
      && (forall i, j :: 0 <= i < j < |r| ==>
            DateValue(r[i].date).Some? && DateValue(r[j].date).Some?
            && DateValue(r[j].date).value <= DateValue(r[i].date).value)
      && forall k :: WithKey(r, Age, k) == WithKey(ws, Age, k)
  {
    var r := SortByKey(ws, Age);
    SortByKeyProps(ws, Age);
    forall k ensures WithKey(r, Age, k) == WithKey(ws, Age, k) {
      SortByKeyStable(ws, Age, k);
    }
    forall i | 0 <= i < |r| ensures DateValue(r[i].date).Some? {
      assert r[i] in multiset(ws);
      var j :| 0 <= j < |ws| && ws[j] == r[i];
    }
  }

  // ---------- the header ----------

  /** `Number(w.distance) || 0` */
  function DistanceOf(w: Workout): int { OrZero(w.distance) }

  /** `Number(w.duration) || 0` */
  function MinutesOf(w: Workout): int { OrZero(w.duration) }

  datatype Summary = Summary(count: nat, hours: string, distance: string)

  /** The header badges: the number of rows, the total hours with one
      decimal, and the total distance in metres or, from 1000 on, in
      kilometres with one decimal. */
  function Header(rows: seq<Workout>): Summary {
    var dist := SumOf(rows, DistanceOf);
    var mins := SumOf(rows, MinutesOf);
    Summary(|rows|, Fixed(mins, 60, 1),
            if dist >= 1000 then Fixed(dist, 1000, 1) + " km" else IntToString(dist) + " m")
  }

  /** The header does not depend on the order of the rows, so neither on
      the sort nor on the order an engine picks for invalid dates. */
  lemma HeaderOrderFree(a: seq<Workout>, b: seq<Workout>)
    requires multiset(a) == multiset(b)
    ensures Header(a) == Header(b)
  {
    SumOfPerm(a, b, DistanceOf);
    SumOfPerm(a, b, MinutesOf);
    assert |a| == |multiset(a)| == |multiset(b)| == |b|;
  }

  /** Sorting or not, the header counts and sums the same workouts. */
  lemma HeaderOfSorted(ws: seq<Workout>, sort: bool)
    requires SortedWorkouts(Some(ws), sort).Some?
    ensures Header(SortedWorkouts(Some(ws), sort).value) == Header(ws)
  {
    if sort {
      SortByKeyProps(ws, Age);
      HeaderOrderFree(SortByKey(ws, Age), ws);
    }
  }

  /** The hours badge reads back as the total minutes over 60 to the
      nearest tenth. */
  lemma HeaderHours(rows: seq<Workout>)
    ensures ReadFixed(Header(rows).hours, 1) == Some(FixedValue(SumOf(rows, MinutesOf), 60, 1))
  {
    FixedRoundTrip(SumOf(rows, MinutesOf), 60, 1);
  }

  // ---------- messages ----------

  /** `showNoRole`: `!role || role === 'None'` */
  predicate ShowNoRole(role: Option<string>) {
    role.None? || role.value == "" || role.value == "None"
  }

  /** `showEmpty` */
  predicate ShowEmpty(loading: bool, error: Option<string>, count: nat, role: Option<string>) {
    !loading && !Filled(error) && count == 0 && !ShowNoRole(role)
  }

  /** The line under the title. */
  function Subtitle(role: Option<string>): string {
    if ShowNoRole(role) then "Select a squad"
    else if role.value == "Coach" then "All squads"
    else "Squad: " + role.value
  }

  /** The title asks for a squad exactly when there is no role to list, and
      otherwise names the squad (or all of them for a coach); the "no
      workouts" line is only shown for a squad. */
  lemma SubtitleShowsRole(loading: bool, error: Option<string>, count: nat, role: Option<string>)
    ensures Subtitle(role) == "Select a squad" <==> ShowNoRole(role)
    ensures !ShowNoRole(role) && role.value != "Coach" ==> Subtitle(role)[7..] == role.value
    ensures ShowEmpty(loading, error, count, role) ==> Subtitle(role) != "Select a squad"
  {
    if !ShowNoRole(role) && role.value != "Coach" {
      assert Subtitle(role)[1] == 'q';
    }
  }
}
