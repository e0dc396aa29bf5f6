/**
 * The personal statistics view: intensity names are normalised, and one
 * pass over the workouts fills minute buckets per sport, per sport and
 * intensity, per intensity overall and per intensity this week, and the
 * minute and distance totals.
 */
module MyStats {
  import opened Wrappers
  import opened Strings
  import opened Time
  import opened Folds
  import opened Buckets
  import opened Sorting
  import opened WorkoutRecords
  import CalendarDates

  // ---------- intensity names ----------

  /** `w.charAt(0).toUpperCase() + w.slice(1)` */
  function Capitalize(w: string): (r: string)
    ensures |r| == |w|
    ensures ToLower(r) == ToLower(w)
  {
    if w == "" then "" else [UpperChar(w[0])] + w[1..]
  }

  function MapCapitalize(ps: seq<string>): (r: seq<string>)
    ensures |r| == |ps| && forall k :: 0 <= k < |ps| ==> r[k] == Capitalize(ps[k])
  {
    if ps == [] then [] else [Capitalize(ps[0])] + MapCapitalize(ps[1..])
  }

  /** `raw.toLowerCase().split(" ").map(capitalize).join(" ")` */
  function TitleCase(raw: string): string {
    Join(MapCapitalize(Split(ToLower(raw), ' ')), " ")
  }

  /** `normalizeIntensity(raw)`: one of the five canonical names, or `None`. */
  function NormalizeIntensity(raw: Option<string>): (r: Option<string>)
    ensures r.Some? ==> r.value in INTENSITY_ORDER
    ensures raw.None? || raw.value == "" ==> r.None?
  {
    if raw.None? || raw.value == "" then None
    else
      var t := TitleCase(raw.value);
      if t in INTENSITY_ORDER then Some(t) else None
  }

  /** A capitalised word: an upper-case first letter, no other upper-case
      letter, no space. */
  predicate TitleWord(w: string) {
    |w| > 0 && IsUpper(w[0]) && (forall i :: 1 <= i < |w| ==> !IsUpper(w[i]))
    && forall i :: 0 <= i < |w| ==> w[i] != ' '
  }

  lemma CapitalizeLowerTitleWord(w: string)
    requires TitleWord(w)
    ensures Capitalize(ToLower(w)) == w
  {
    var l := ToLower(w);
    assert UpperChar(LowerChar(w[0])) == w[0];
    assert l[1..] == w[1..];
  }

  lemma {:induction false} MapCapitalizeLower(ws: seq<string>)
    requires forall k :: 0 <= k < |ws| ==> TitleWord(ws[k])
    ensures MapCapitalize(MapLower(ws)) == ws
  {
    forall k | 0 <= k < |ws| ensures MapCapitalize(MapLower(ws))[k] == ws[k] {
      CapitalizeLowerTitleWord(ws[k]);
    }
  }

  /** Space-separated capitalised words are their own title case. */
  lemma TitleCaseOfTitleWords(ws: seq<string>)
    requires |ws| >= 1 && forall k :: 0 <= k < |ws| ==> TitleWord(ws[k])
    ensures TitleCase(Join(ws, " ")) == Join(ws, " ")
  {
    SplitLowerJoin(ws, ' ');
    MapCapitalizeLower(ws);
  }

  /** Each canonical name normalises to itself. */
  lemma CanonicalFixed(c: string)
    requires c in INTENSITY_ORDER
    ensures TitleCase(c) == c
    ensures NormalizeIntensity(Some(c)) == Some(c)
  {
    var ws: seq<string> :=
      if c == "Very Low" then ["Very", "Low"]
      else if c == "Very High" then ["Very", "High"]
      else [c];
    assert Join(ws, " ") == c;
    assert forall k :: 0 <= k < |ws| ==> TitleWord(ws[k]);
    TitleCaseOfTitleWords(ws);
  }

  /** Normalisation ignores case: a string that lower-cases to a canonical
      name's lower case normalises to that name ("very HIGH" is "Very High"). */
  lemma NormalizeCaseInsensitive(s: string, c: string)
    requires c in INTENSITY_ORDER && ToLower(s) == ToLower(c)
    ensures NormalizeIntensity(Some(s)) == Some(c)
  {
    CanonicalFixed(c);
    ToLowerTwice(s);
    ToLowerTwice(c);
    assert TitleCase(s) == TitleCase(c);
  }

  /** Normalisation does not trim: a leading space leaves an empty first
      word, so the result is never a canonical name. */
  lemma NormalizeNoTrim(s: string)
    ensures NormalizeIntensity(Some(" " + s)) == None
  {
    var l := ToLower(" " + s);
    assert l == " " + ToLower(s) by { ToLowerConcat(" ", s); }
    assert l == [] + [' '] + ToLower(s);
    SplitAtFirst([], ' ', ToLower(s), c => c == ' ');
    var parts := Split(l, ' ');
    assert parts[0] == "";
    var caps := MapCapitalize(parts);
    assert caps[0] == "";
    assert |caps| >= 2;
    var t := Join(caps, " ");
    assert t == caps[0] + " " + Join(caps[1..], " ");
    assert t[0] == ' ';
    forall c | c in INTENSITY_ORDER ensures t != c {
      assert c[0] != ' ';
    }
  }

  /** The lower case of the title case is the lower case of the input. */
  lemma TitleCaseLower(s: string)
    ensures ToLower(TitleCase(s)) == ToLower(s)
  {
    var parts := Split(ToLower(s), ' ');
    var caps := MapCapitalize(parts);
    ToLowerJoin(caps, " ");
    assert ToLower(" ") == " ";
    assert MapLower(caps) == MapLower(parts);
    ToLowerJoin(parts, " ");
    JoinSplit(ToLower(s), ' ');
    assert Join(parts, " ") == ToLower(s);
    ToLowerTwice(s);
  }

  // ---------- what one workout contributes ----------

  /** `new Date(w.date)` of a non-null entry. */
  function DateOf(w: Item): Option<Instant> {
    if w.None? then None else DateValue(w.value.date)
  }

  /** The minutes a workout adds: its duration when its date is valid and
      the duration is a positive number. */
  function MinutesOf(w: Item): int {
    if DateOf(w).Some? && w.value.duration.Some? && w.value.duration.value > 0
    then w.value.duration.value else 0
  }

  /** The distance a workout adds: any number, when its date is valid. */
  function DistanceOf(w: Item): int {
    if DateOf(w).Some? && w.value.distance.Some? then w.value.distance.value else 0
  }

  /** The sport bucket of a workout, when its sport is one of the six. */
  function SportOf(w: Item): Option<string> {
    if w.Some? && w.value.sport.Some? && w.value.sport.value in ALL_SPORTS then w.value.sport else None
  }

  function IntensityOf(w: Item): Option<string> {
    if w.Some? then NormalizeIntensity(w.value.intensity) else None
  }

  /** The minutes of `w` in the bucket of sport `s`. */
  function SportCell(w: Item, s: string): int {
    if SportOf(w) == Some(s) then MinutesOf(w) else 0
  }

  /** The minutes of `w` in the bucket of intensity `c` of sport `s`. */
  function GridCell(s: string): (Item, string) -> int {
    (w: Item, c: string) => if SportOf(w) == Some(s) && IntensityOf(w) == Some(c) then MinutesOf(w) else 0
  }

  /** The minutes of `w` in the overall bucket of intensity `c`. */
  function IntensityCell(w: Item, c: string): int {
    if IntensityOf(w) == Some(c) then MinutesOf(w) else 0
  }

  /** The minutes of `w` in this week's bucket of intensity `c`, the week
      being `[lo, hi)`. */
  function WeekCell(lo: Instant, hi: Instant): (Item, string) -> int {
    (w: Item, c: string) =>
      if IntensityOf(w) == Some(c) && DateOf(w).Some? && lo <= DateOf(w).value < hi then MinutesOf(w) else 0
  }

  /** The dates collected by `dates.push(d)`, in input order. */
  function CountedDates(ws: seq<Item>): seq<Instant> {
    if ws == [] then []
    else CountedDates(ws[..|ws| - 1]) + (if MinutesOf(ws[|ws| - 1]) > 0 then [DateOf(ws[|ws| - 1]).value] else [])
  }

  lemma CountedDatesPrefix(ws: seq<Item>, i: nat)
    requires i < |ws|
    ensures CountedDates(ws[..i + 1]) == CountedDates(ws[..i]) + (if MinutesOf(ws[i]) > 0 then [DateOf(ws[i]).value] else [])
  {
    assert ws[..i + 1][..i] == ws[..i];
  }

  /** The collected dates are exactly the dates of the workouts whose
      minutes count. */
  lemma {:induction false} CountedDatesProps(ws: seq<Item>)
    ensures forall k :: 0 <= k < |ws| && MinutesOf(ws[k]) > 0 ==> DateOf(ws[k]).value in CountedDates(ws)
    ensures forall t :: t in CountedDates(ws) ==> exists k :: 0 <= k < |ws| && MinutesOf(ws[k]) > 0 && DateOf(ws[k]) == Some(t)
  {
    if ws != [] {
      var n := |ws| - 1;
      CountedDatesProps(ws[..n]);
      forall k | 0 <= k < |ws| && MinutesOf(ws[k]) > 0 ensures DateOf(ws[k]).value in CountedDates(ws) {
        if k < n {
          assert ws[..n][k] == ws[k];
        }
      }
      forall t | t in CountedDates(ws)
        ensures exists k :: 0 <= k < |ws| && MinutesOf(ws[k]) > 0 && DateOf(ws[k]) == Some(t)
      {
        if t in CountedDates(ws[..n]) {
          var k :| 0 <= k < n && MinutesOf(ws[..n][k]) > 0 && DateOf(ws[..n][k]) == Some(t);
          assert ws[k] == ws[..n][k];
        } else {
          assert MinutesOf(ws[n]) > 0 && DateOf(ws[n]) == Some(t);
        }
      }
    }
  }

  // ---------- the aggregate ----------

  /** The result of the aggregation, in minutes. */
  datatype Summary = Summary(
    sportMinutes: map<string, int>,
    sportIntensityMinutes: map<string, map<string, int>>,
    intensityMinutes: map<string, int>,
    intensityWeekMinutes: map<string, int>,
    totalMinutes: int,
    totalDistance: int,
    first: Instant,
    last: Instant,
    workoutCount: nat)

  /** Monday 00:00 of the week of `now`: `setHours(0, 0, 0, 0)`, then back
      `(getDay() + 6) % 7` days. */
  function WeekStartOf(z: Zone, now: Instant): Instant {
    AddDays(StartOfDay(z, now), -((WeekDay(z, now) + 6) % 7))
  }

  /** This week is the calendar's week. */
  lemma WeekStartIsCalendarWeek(z: Zone, now: Instant)
    ensures WeekStartOf(z, now) == CalendarDates.StartOfWeek(z, now)
  {
    assert WeekDay(z, StartOfDay(z, now)) == WeekDay(z, now);
  }

  /** The aggregation (lines 54-152) specified by sums over the workouts. */
  function Stats(z: Zone, now: Instant, workouts: Option<seq<Item>>): Summary {
    var ws := Items(workouts);
    var lo := WeekStartOf(z, now);
    var hi := AddDays(lo, 7);
    var dates := SortByKey(CountedDates(ws), Id);
    Summary(
      SportMinutes(ws),
      GridMinutes(ws),
      ColSumMap(ws, IntensityCell),
      ColSumMap(ws, WeekCell(lo, hi)),
      SumOf(ws, MinutesOf),
      SumOf(ws, DistanceOf),
      if dates == [] then now else dates[0],
      if dates == [] then now else dates[|dates| - 1],
      if workouts.Some? then |workouts.value| else 0)
  }

  /** The minutes per sport. */
  function SportMinutes(ws: seq<Item>): map<string, int> {
    Sums(ws, SportCell, ALL_SPORTS)
  }

  /** The minutes per sport and intensity. */
  function GridMinutes(ws: seq<Item>): map<string, map<string, int>> {
    NestedSums(ws, GridCell, ALL_SPORTS, INTENSITY_ORDER)
  }

  /** The intensity buckets of one table of cells. */
  function ColSumMap(ws: seq<Item>, f: (Item, string) -> int): map<string, int> {
    Sums(ws, f, INTENSITY_ORDER)
  }

  /** `Math.max(1, (last - first) / week)` */
  function SpanWeeks(r: Summary): real {
    var q := (r.last - r.first) as real / MS_PER_WEEK as real;
    if q > 1.0 then q else 1.0
  }

  /** The partial results after the first `i` workouts of `ws`. */
  ghost predicate Tally(done: seq<Item>, lo: Instant, hi: Instant,
                        sportTotal: map<string, int>, sportInt: map<string, map<string, int>>,
                        intAll: map<string, int>, intWeek: map<string, int>,
                        totalMinutes: int, totalDistance: int, dates: seq<Instant>)
  {
    Bucket(sportTotal, done, SportCell, ALL_SPORTS)
    && NestedBucket(sportInt, done, GridCell, ALL_SPORTS, INTENSITY_ORDER)
    && Bucket(intAll, done, IntensityCell, INTENSITY_ORDER)
    && Bucket(intWeek, done, WeekCell(lo, hi), INTENSITY_ORDER)
    && totalMinutes == SumOf(done, MinutesOf)
    && totalDistance == SumOf(done, DistanceOf)
    && dates == CountedDates(done)
  }

  /** Where workout `w` falls: `key` when its minutes count, nowhere otherwise. */
  function Counted(w: Item, key: Option<string>): Option<string> {
    if MinutesOf(w) > 0 then key else None
  }

  /** `key` when the date of `w` lies in `[lo, hi)`, nowhere otherwise. */
  function InWeek(w: Item, lo: Instant, hi: Instant, key: Option<string>): Option<string> {
    if DateOf(w).Some? && lo <= DateOf(w).value < hi then key else None
  }

  /** The cells of workout `w` in each table: its minutes in the bucket it
      falls in, nothing elsewhere. */
  lemma CellsOf(w: Item, lo: Instant, hi: Instant)
    ensures Counted(w, SportOf(w)).Some? ==> Counted(w, SportOf(w)).value in ALL_SPORTS
    ensures Counted(w, IntensityOf(w)).Some? ==> Counted(w, IntensityOf(w)).value in INTENSITY_ORDER
    ensures InWeek(w, lo, hi, Counted(w, IntensityOf(w))).Some? ==> InWeek(w, lo, hi, Counted(w, IntensityOf(w))).value in INTENSITY_ORDER
    ensures forall k :: k in ALL_SPORTS ==> SportCell(w, k) == if Counted(w, SportOf(w)) == Some(k) then MinutesOf(w) else 0
    ensures forall k :: k in INTENSITY_ORDER ==> IntensityCell(w, k) == if Counted(w, IntensityOf(w)) == Some(k) then MinutesOf(w) else 0
    ensures forall k :: k in INTENSITY_ORDER ==>
      WeekCell(lo, hi)(w, k) == if InWeek(w, lo, hi, Counted(w, IntensityOf(w))) == Some(k) then MinutesOf(w) else 0
    ensures forall s, c :: s in ALL_SPORTS && c in INTENSITY_ORDER ==>
      GridCell(s)(w, c) == if Counted(w, SportOf(w)) == Some(s) && Counted(w, IntensityOf(w)) == Some(c) then MinutesOf(w) else 0
  {
  }

  /** The `forEach` callback of lines 76-104 applied to workout `i`. */
  method Visit(ws: seq<Item>, i: nat, lo: Instant, hi: Instant,
               sportTotal: map<string, int>, sportInt: map<string, map<string, int>>,
               intAll: map<string, int>, intWeek: map<string, int>,
               totalMinutes: int, totalDistance: int, dates: seq<Instant>)
    returns (sportTotal': map<string, int>, sportInt': map<string, map<string, int>>,
             intAll': map<string, int>, intWeek': map<string, int>,
             totalMinutes': int, totalDistance': int, dates': seq<Instant>)
    requires i < |ws|
    requires Tally(ws[..i], lo, hi, sportTotal, sportInt, intAll, intWeek, totalMinutes, totalDistance, dates)
    ensures Tally(ws[..i + 1], lo, hi, sportTotal', sportInt', intAll', intWeek', totalMinutes', totalDistance', dates')
  {
    var w := ws[i];
    CountedDatesPrefix(ws, i);
    CellsOf(w, lo, hi);
    SumOfPrefix(ws, i, MinutesOf);
    SumOfPrefix(ws, i, DistanceOf);
    var mins := MinutesOf(w);
    var sportKey := Counted(w, SportOf(w));
    var intensity := Counted(w, IntensityOf(w));
    totalMinutes', dates' := totalMinutes, dates;
    if mins > 0 {
      totalMinutes' := totalMinutes + mins;
      dates' := dates + [DateOf(w).value];
    }
    sportTotal' := AddTo(sportTotal, sportKey, mins, ws, i, SportCell, ALL_SPORTS);
    sportInt' := AddToNested(sportInt, sportKey, intensity, mins, ws, i, GridCell, ALL_SPORTS, INTENSITY_ORDER);
    intAll' := AddTo(intAll, intensity, mins, ws, i, IntensityCell, INTENSITY_ORDER);
    intWeek' := AddTo(intWeek, InWeek(w, lo, hi, intensity), mins, ws, i, WeekCell(lo, hi), INTENSITY_ORDER);
    totalDistance' := totalDistance + DistanceOf(w);
  }

  /** Lines 56-66: the buckets start at zero. */
  method Start(ghost done: seq<Item>, lo: Instant, hi: Instant)
    returns (sportTotal: map<string, int>, sportInt: map<string, map<string, int>>,
             intAll: map<string, int>, intWeek: map<string, int>,
             totalMinutes: int, totalDistance: int, dates: seq<Instant>)
    requires done == []
    ensures Tally(done, lo, hi, sportTotal, sportInt, intAll, intWeek, totalMinutes, totalDistance, dates)
  {
    sportTotal := map s | s in ALL_SPORTS :: 0;
    sportInt := map s | s in ALL_SPORTS :: map c | c in INTENSITY_ORDER :: 0;
    intAll := map c | c in INTENSITY_ORDER :: 0;
    intWeek := map c | c in INTENSITY_ORDER :: 0;
    totalMinutes, totalDistance, dates := 0, 0, [];
    BucketStart(done, SportCell, ALL_SPORTS);
    BucketStart(done, IntensityCell, INTENSITY_ORDER);
    BucketStart(done, WeekCell(lo, hi), INTENSITY_ORDER);
    forall s | s in ALL_SPORTS ensures Bucket(sportInt[s], done, GridCell(s), INTENSITY_ORDER) {
      BucketStart(done, GridCell(s), INTENSITY_ORDER);
    }
  }

  /** After the last workout the buckets are the sums `Stats` names. */
  lemma TallyDone(ws: seq<Item>, lo: Instant, hi: Instant,
                  sportTotal: map<string, int>, sportInt: map<string, map<string, int>>,
                  intAll: map<string, int>, intWeek: map<string, int>,
                  totalMinutes: int, totalDistance: int, dates: seq<Instant>)
    requires Tally(ws, lo, hi, sportTotal, sportInt, intAll, intWeek, totalMinutes, totalDistance, dates)
    ensures sportTotal == SportMinutes(ws)
    ensures sportInt == GridMinutes(ws)
    ensures intAll == ColSumMap(ws, IntensityCell)
    ensures intWeek == ColSumMap(ws, WeekCell(lo, hi))
    ensures totalMinutes == SumOf(ws, MinutesOf)
    ensures totalDistance == SumOf(ws, DistanceOf)
    ensures dates == CountedDates(ws)
  {
    BucketIsMap(sportTotal, ws, SportCell, ALL_SPORTS);
    BucketIsMap(intAll, ws, IntensityCell, INTENSITY_ORDER);
    BucketIsMap(intWeek, ws, WeekCell(lo, hi), INTENSITY_ORDER);
    NestedIsMap(sportInt, ws, GridCell, ALL_SPORTS, INTENSITY_ORDER);
  }

  /** The `useMemo` aggregation of lines 54-152: one pass over the
      workouts updating the buckets in place. */
  method Aggregate(z: Zone, now: Instant, workouts: Option<seq<Item>>) returns (r: Summary)
    ensures r == Stats(z, now, workouts)
  {
    var ws := Items(workouts);
    var lo := WeekStartOf(z, now);
    var hi := AddDays(lo, 7);
    var sportTotal, sportInt, intAll, intWeek, totalMinutes, totalDistance, dates := Pass(ws, lo, hi);
    dates := SortByKey(dates, Id);
    var first := if dates == [] then now else dates[0];
    var last := if dates == [] then now else dates[|dates| - 1];
    r := Summary(sportTotal, sportInt, intAll, intWeek, totalMinutes, totalDistance, first, last,
                 if workouts.Some? then |workouts.value| else 0);
  }

  /** Lines 56-104: the buckets start at zero and the `forEach` adds each
      workout in turn; the current week is `[lo, hi)`. */
  method Pass(ws: seq<Item>, lo: Instant, hi: Instant)
    returns (sportTotal: map<string, int>, sportInt: map<string, map<string, int>>,
             intAll: map<string, int>, intWeek: map<string, int>,
             totalMinutes: int, totalDistance: int, dates: seq<Instant>)
    ensures sportTotal == SportMinutes(ws)
    ensures sportInt == GridMinutes(ws)
    ensures intAll == ColSumMap(ws, IntensityCell)
    ensures intWeek == ColSumMap(ws, WeekCell(lo, hi))
    ensures totalMinutes == SumOf(ws, MinutesOf)
    ensures totalDistance == SumOf(ws, DistanceOf)
    ensures dates == CountedDates(ws)
  {
    sportTotal, sportInt, intAll, intWeek, totalMinutes, totalDistance, dates := Start(ws[..0], lo, hi);
    var i := 0;
    while i < |ws|
      invariant i <= |ws|
      invariant Tally(ws[..i], lo, hi, sportTotal, sportInt, intAll, intWeek, totalMinutes, totalDistance, dates)
    {
      sportTotal, sportInt, intAll, intWeek, totalMinutes, totalDistance, dates :=
        Visit(ws, i, lo, hi, sportTotal, sportInt, intAll, intWeek, totalMinutes, totalDistance, dates);
      i := i + 1;
    }
    assert ws[..i] == ws;
    TallyDone(ws, lo, hi, sportTotal, sportInt, intAll, intWeek, totalMinutes, totalDistance, dates);
  }

  // ---------- properties of the aggregate ----------

  /** The minutes of a workout whose sport is none of the six. */
  function NoSportMinutes(w: Item): int {
    if SportOf(w).None? then MinutesOf(w) else 0
  }

  /** The minutes of a workout whose intensity is none of the five. */
  function NoIntensityMinutes(w: Item): int {
    if IntensityOf(w).None? then MinutesOf(w) else 0
  }

  lemma SportsDistinct()
    ensures Distinct(ALL_SPORTS)
  {
  }

  lemma LevelsDistinct()
    ensures Distinct(INTENSITY_ORDER)
  {
  }

  /** Every counted minute is in a sport bucket or has an unknown sport. */
  lemma SportSplit(ws: seq<Item>)
    ensures SumOf(ws, MinutesOf) == SumOf(ws, InKeys(ALL_SPORTS, SportOf, MinutesOf)) + SumOf(ws, NoSportMinutes)
  {
    SumOfAdd(ws, InKeys(ALL_SPORTS, SportOf, MinutesOf), NoSportMinutes, MinutesOf);
  }

  lemma IntensitySplit(ws: seq<Item>)
    ensures SumOf(ws, MinutesOf) == SumOf(ws, InKeys(INTENSITY_ORDER, IntensityOf, MinutesOf)) + SumOf(ws, NoIntensityMinutes)
  {
    SumOfAdd(ws, InKeys(INTENSITY_ORDER, IntensityOf, MinutesOf), NoIntensityMinutes, MinutesOf);
  }

  /** The sport buckets hold every counted minute except those of workouts
      with an unknown sport, which reach only the total. */
  lemma SportBucketsTotal(z: Zone, now: Instant, workouts: Option<seq<Item>>)
    ensures MapTotal(Stats(z, now, workouts).sportMinutes, ALL_SPORTS) + SumOf(Items(workouts), NoSportMinutes)
            == Stats(z, now, workouts).totalMinutes
  {
    var ws := Items(workouts);
    var m := Stats(z, now, workouts).sportMinutes;
    assert forall k :: k in ALL_SPORTS ==> k in m && m[k] == SumOf(ws, Col(SportCell, k));
    MapTotalCols(m, ws, SportCell, ALL_SPORTS);
    SportsDistinct();
    ColumnTotal(ws, ALL_SPORTS, SportCell, SportOf, MinutesOf);
    SportSplit(ws);
  }

  /** The overall intensity buckets hold every counted minute except those
      of workouts with an unrecognised intensity. */
  lemma IntensityBucketsTotal(z: Zone, now: Instant, workouts: Option<seq<Item>>)
    ensures MapTotal(Stats(z, now, workouts).intensityMinutes, INTENSITY_ORDER) + SumOf(Items(workouts), NoIntensityMinutes)
            == Stats(z, now, workouts).totalMinutes
  {
    var ws := Items(workouts);
    var m := Stats(z, now, workouts).intensityMinutes;
    assert forall k :: k in INTENSITY_ORDER ==> k in m && m[k] == SumOf(ws, Col(IntensityCell, k));
    MapTotalCols(m, ws, IntensityCell, INTENSITY_ORDER);
    LevelsDistinct();
    ColumnTotal(ws, INTENSITY_ORDER, IntensityCell, IntensityOf, MinutesOf);
    IntensitySplit(ws);
  }

  /** This week's minutes at an intensity never exceed all minutes at it. */
  lemma WeekWithinOverall(z: Zone, now: Instant, workouts: Option<seq<Item>>, c: string)
    requires c in INTENSITY_ORDER
    ensures 0 <= Stats(z, now, workouts).intensityWeekMinutes[c] <= Stats(z, now, workouts).intensityMinutes[c]
  {
    var ws := Items(workouts);
    var lo := WeekStartOf(z, now);
    SumOfNonNeg(ws, Col(WeekCell(lo, AddDays(lo, 7)), c));
    SumOfLe(ws, Col(WeekCell(lo, AddDays(lo, 7)), c), Col(IntensityCell, c));
  }

  /** The intensity of `w` when it falls in sport `s`. */
  function GridKey(s: string): Item -> Option<string> {
    (w: Item) => if SportOf(w) == Some(s) then IntensityOf(w) else None
  }

  lemma GridRow(ws: seq<Item>, s: string)
    ensures SumOf(ws, InKeys(INTENSITY_ORDER, GridKey(s), MinutesOf)) <= SumOf(ws, Col(SportCell, s))
  {
    forall w | w in ws ensures InKeys(INTENSITY_ORDER, GridKey(s), MinutesOf)(w) <= Col(SportCell, s)(w) {
      assert Col(SportCell, s)(w) == SportCell(w, s);
      if GridKey(s)(w).Some? {
        assert SportOf(w) == Some(s);
      }
    }
    SumOfLe(ws, InKeys(INTENSITY_ORDER, GridKey(s), MinutesOf), Col(SportCell, s));
  }

  lemma GridRowTotal(ws: seq<Item>, s: string)
    ensures MapTotal(ColSumMap(ws, GridCell(s)), INTENSITY_ORDER) <= SumOf(ws, Col(SportCell, s))
  {
    MapTotalCols(ColSumMap(ws, GridCell(s)), ws, GridCell(s), INTENSITY_ORDER);
    LevelsDistinct();
    ColumnTotal(ws, INTENSITY_ORDER, GridCell(s), GridKey(s), MinutesOf);
    GridRow(ws, s);
  }

  /** A sport's intensity buckets hold at most that sport's minutes. */
  lemma SportRowWithin(z: Zone, now: Instant, workouts: Option<seq<Item>>, s: string)
    requires s in ALL_SPORTS
    ensures MapTotal(Stats(z, now, workouts).sportIntensityMinutes[s], INTENSITY_ORDER) <= Stats(z, now, workouts).sportMinutes[s]
  {
    GridRowTotal(Items(workouts), s);
  }

  /** The minutes total is a sum of positive durations. */
  lemma TotalNonNegative(z: Zone, now: Instant, workouts: Option<seq<Item>>)
    ensures Stats(z, now, workouts).totalMinutes >= 0
  {
    SumOfNonNeg(Items(workouts), MinutesOf);
  }

  /** With nothing counted, the first and last dates fall back to `now`
      and the span to one week. */
  lemma NothingCounted(z: Zone, now: Instant, workouts: Option<seq<Item>>)
    requires forall k :: 0 <= k < |Items(workouts)| ==> MinutesOf(Items(workouts)[k]) == 0
    ensures Stats(z, now, workouts).first == now && Stats(z, now, workouts).last == now
    ensures Stats(z, now, workouts).totalMinutes == 0
    ensures SpanWeeks(Stats(z, now, workouts)) == 1.0
  {
    var ws := Items(workouts);
    CountedDatesProps(ws);
    if CountedDates(ws) != [] {
      assert CountedDates(ws)[0] in CountedDates(ws);
    }
    SumOfZero(ws, MinutesOf);
  }

  /** No workouts at all: every bucket is zero and the count is zero. */
  lemma NoWorkouts(z: Zone, now: Instant, workouts: Option<seq<Item>>)
    requires workouts.None? || workouts == Some([])
    ensures Stats(z, now, workouts).workoutCount == 0
    ensures forall s :: s in ALL_SPORTS ==> Stats(z, now, workouts).sportMinutes[s] == 0
    ensures forall c :: c in INTENSITY_ORDER ==> Stats(z, now, workouts).intensityMinutes[c] == 0
    ensures Stats(z, now, workouts).totalMinutes == 0 && Stats(z, now, workouts).totalDistance == 0
    ensures Stats(z, now, workouts).first == now && Stats(z, now, workouts).last == now
  {
  }

  /** Every counted workout lies between the first and the last date, which
      are themselves dates of counted workouts. */
  lemma FirstLastBound(z: Zone, now: Instant, workouts: Option<seq<Item>>, k: nat)
    requires k < |Items(workouts)| && MinutesOf(Items(workouts)[k]) > 0
    ensures Stats(z, now, workouts).first <= DateOf(Items(workouts)[k]).value <= Stats(z, now, workouts).last
  {
    var ws := Items(workouts);
    var dates := SortByKey(CountedDates(ws), Id);
    CountedDatesProps(ws);
    SortByKeyProps(CountedDates(ws), Id);
    var t := DateOf(ws[k]).value;
    assert t in multiset(dates);
    var j :| 0 <= j < |dates| && dates[j] == t;
    assert j > 0 ==> Id(dates[0]) <= Id(dates[j]);
    assert j < |dates| - 1 ==> Id(dates[j]) <= Id(dates[|dates| - 1]);
  }

  lemma FirstLastAttained(z: Zone, now: Instant, workouts: Option<seq<Item>>)
    requires exists k :: 0 <= k < |Items(workouts)| && MinutesOf(Items(workouts)[k]) > 0
    ensures exists k :: 0 <= k < |Items(workouts)| && MinutesOf(Items(workouts)[k]) > 0
                        && DateOf(Items(workouts)[k]) == Some(Stats(z, now, workouts).first)
    ensures exists k :: 0 <= k < |Items(workouts)| && MinutesOf(Items(workouts)[k]) > 0
                        && DateOf(Items(workouts)[k]) == Some(Stats(z, now, workouts).last)
  {
    var ws := Items(workouts);
    var cd := CountedDates(ws);
    CountedDatesProps(ws);
    var k :| 0 <= k < |ws| && MinutesOf(ws[k]) > 0;
    assert DateOf(ws[k]).value in cd;
    SortedEnds(cd);
  }

  /** The ends of the sorted dates are among the dates. */
  lemma SortedEnds(cd: seq<Instant>)
    requires cd != []
    ensures var dates := SortByKey(cd, Id);
      dates != [] && dates[0] in cd && dates[|dates| - 1] in cd
  {
    var dates := SortByKey(cd, Id);
    SortByKeyProps(cd, Id);
    assert |dates| == |multiset(dates)| == |multiset(cd)| == |cd|;
    assert dates[0] in multiset(dates) && dates[|dates| - 1] in multiset(dates);
  }

  /** `Math.max(1, ...)`: the span is at least one week, so the weekly
      average never exceeds the total. */
  lemma SpanAtLeastOneWeek(r: Summary)
    ensures SpanWeeks(r) >= 1.0
    ensures r.totalMinutes >= 0 ==> 0.0 <= AverageHoursPerWeek(r) <= r.totalMinutes as real / 60.0
  {
  }

  /** `(totalMinutes / 60) / spanWeeks` */
  function AverageHoursPerWeek(r: Summary): real {
    (r.totalMinutes as real / 60.0) / SpanWeeks(r)
  }

  /** `+(m / 60).toFixed(2)` in hundredths of an hour: `m / 60` rounded to
      two decimals. A third of a hundredth apart from the exact value, the
      rounding is never a tie. */
  function HoursHundredths(m: int): (r: int)
    ensures -1 <= 3 * r - 5 * m <= 1
  {
    if m >= 0 then (10 * m + 3) / 6 else -((10 * -m + 3) / 6)
  }

  // ---------- order independence ----------

  lemma {:induction false} CountedDatesConcat(a: seq<Item>, b: seq<Item>)
    ensures CountedDates(a + b) == CountedDates(a) + CountedDates(b)
  {
    if b == [] {
      assert a + b == a;
    } else {
      var n := |b| - 1;
      assert (a + b)[..|a + b| - 1] == a + b[..n];
      CountedDatesConcat(a, b[..n]);
      assert (a + b)[|a + b| - 1] == b[n];
    }
  }

  /** The elements of `q` without position `i`. */
  lemma RemoveAt(q: seq<Item>, i: nat)
    requires i < |q|
    ensures q == q[..i] + [q[i]] + q[i + 1..]
    ensures multiset(q[..i] + q[i + 1..]) == multiset(q) - multiset{q[i]}
  {
    assert q == q[..i] + [q[i]] + q[i + 1..];
  }

  lemma DatesOfRemoved(q: seq<Item>, i: nat)
    requires i < |q|
    ensures multiset(CountedDates(q)) == multiset(CountedDates(q[..i] + q[i + 1..])) + multiset(CountedDates([q[i]]))
  {
    RemoveAt(q, i);
    CountedDatesConcat(q[..i] + [q[i]], q[i + 1..]);
    CountedDatesConcat(q[..i], [q[i]]);
    CountedDatesConcat(q[..i], q[i + 1..]);
  }

  /** Reordering the workouts reorders the collected dates. */
  lemma {:induction false} CountedDatesPerm(p: seq<Item>, q: seq<Item>)
    requires multiset(p) == multiset(q)
    ensures multiset(CountedDates(p)) == multiset(CountedDates(q))
  {
    if p == [] {
      assert |q| == |multiset(q)| == 0;
    } else {
      var n := |p| - 1;
      var x := p[n];
      assert x in multiset(q) by {
        assert p == p[..n] + [x];
      }
      var i :| 0 <= i < |q| && q[i] == x;
      RemoveAt(q, i);
      assert p == p[..n] + [x];
      assert multiset(p[..n]) == multiset(p) - multiset{x};
      CountedDatesPerm(p[..n], q[..i] + q[i + 1..]);
      CountedDatesConcat(p[..n], [x]);
      DatesOfRemoved(q, i);
    }
  }

  lemma ColSumMapPerm(p: seq<Item>, q: seq<Item>, f: (Item, string) -> int)
    requires multiset(p) == multiset(q)
    ensures ColSumMap(p, f) == ColSumMap(q, f)
  {
    forall c | c in INTENSITY_ORDER ensures SumOf(p, Col(f, c)) == SumOf(q, Col(f, c)) {
      SumOfPerm(p, q, Col(f, c));
    }
  }

  lemma BucketsPerm(p: seq<Item>, q: seq<Item>)
    requires multiset(p) == multiset(q)
    ensures SportMinutes(p) == SportMinutes(q)
    ensures GridMinutes(p) == GridMinutes(q)
  {
    forall s | s in ALL_SPORTS ensures SumOf(p, Col(SportCell, s)) == SumOf(q, Col(SportCell, s)) {
      SumOfPerm(p, q, Col(SportCell, s));
    }
    forall s | s in ALL_SPORTS ensures ColSumMap(p, GridCell(s)) == ColSumMap(q, GridCell(s)) {
      ColSumMapPerm(p, q, GridCell(s));
    }
  }

  lemma SortedDatesPerm(p: seq<Item>, q: seq<Item>)
    requires multiset(p) == multiset(q)
    ensures SortByKey(CountedDates(p), Id) == SortByKey(CountedDates(q), Id)
  {
    CountedDatesPerm(p, q);
    SortByKeyProps(CountedDates(p), Id);
    SortByKeyProps(CountedDates(q), Id);
    SortedUnique(SortByKey(CountedDates(p), Id), SortByKey(CountedDates(q), Id));
  }

  /** The aggregate does not depend on the order of the workouts. */
  lemma StatsPermutation(z: Zone, now: Instant, p: seq<Item>, q: seq<Item>)
    requires multiset(p) == multiset(q)
    ensures Stats(z, now, Some(p)) == Stats(z, now, Some(q))
  {
    var lo := WeekStartOf(z, now);
    BucketsPerm(p, q);
    ColSumMapPerm(p, q, IntensityCell);
    ColSumMapPerm(p, q, WeekCell(lo, AddDays(lo, 7)));
    SumOfPerm(p, q, MinutesOf);
    SumOfPerm(p, q, DistanceOf);
    SortedDatesPerm(p, q);
    assert |p| == |multiset(p)| == |multiset(q)| == |q|;
  }

  // ---------- records the callback skips ----------

  lemma ColSumMapSnocZero(ws: seq<Item>, w: Item, f: (Item, string) -> int)
    requires forall c :: f(w, c) == 0
    ensures ColSumMap(ws + [w], f) == ColSumMap(ws, f)
  {
    forall c | c in INTENSITY_ORDER ensures SumOf(ws + [w], Col(f, c)) == SumOf(ws, Col(f, c)) {
      SumOfSnoc(ws, w, Col(f, c));
    }
  }

  lemma BucketsSnocZero(ws: seq<Item>, w: Item)
    requires MinutesOf(w) == 0
    ensures SportMinutes(ws + [w]) == SportMinutes(ws)
    ensures GridMinutes(ws + [w]) == GridMinutes(ws)
  {
    forall s | s in ALL_SPORTS ensures SumOf(ws + [w], Col(SportCell, s)) == SumOf(ws, Col(SportCell, s)) {
      SumOfSnoc(ws, w, Col(SportCell, s));
      assert Col(SportCell, s)(w) == SportCell(w, s) == 0;
    }
    forall s | s in ALL_SPORTS ensures ColSumMap(ws + [w], GridCell(s)) == ColSumMap(ws, GridCell(s)) {
      ColSumMapSnocZero(ws, w, GridCell(s));
    }
  }

  /** A workout that adds no minutes leaves every bucket and both dates as
      they are; `null` entries and entries with an invalid date are also
      left out of the distance, yet all of them are counted in
      `workoutCount`. */
  lemma ZeroMinutesRecord(z: Zone, now: Instant, ws: seq<Item>, w: Item)
    requires MinutesOf(w) == 0
    ensures Stats(z, now, Some(ws + [w])) ==
            Stats(z, now, Some(ws)).(totalDistance := Stats(z, now, Some(ws)).totalDistance + DistanceOf(w),
                                    workoutCount := |ws| + 1)
    ensures w.None? || DateOf(w).None? ==> DistanceOf(w) == 0
  {
    var lo := WeekStartOf(z, now);
    BucketsSnocZero(ws, w);
    ColSumMapSnocZero(ws, w, IntensityCell);
    ColSumMapSnocZero(ws, w, WeekCell(lo, AddDays(lo, 7)));
    SumOfSnoc(ws, w, MinutesOf);
    SumOfSnoc(ws, w, DistanceOf);
    CountedDatesConcat(ws, [w]);
    assert CountedDates(ws + [w]) == CountedDates(ws);
  }
}
