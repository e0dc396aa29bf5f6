/**
 * What the team statistics promise: the members are the sorted, distinct
 * labels of the non-null entries; each member's sport buckets hold exactly
 * that member's minutes and the intensity buckets at most those; the team
 * totals, although summed member by member, are sums over the entries;
 * and the weekly series is five consecutive Monday weeks ending with the
 * current one.
 */
module TeamStatsFacts {
  import opened Wrappers
  import opened Time
  import opened Folds
  import opened Buckets
  import opened StringOrder
  import opened WorkoutRecords
  import opened TeamStats
  import MyStats
  import CalendarDates

  // ---------- the members ----------

  /** The fields of the summary, each its own function of the entries.
      This only unfolds `Team` once, so that the lemmas below can name the
      fields without unfolding it themselves. */
  lemma TeamFields(z: Zone, now: Instant, workouts: Option<seq<Item>>)
    ensures var t := Team(z, now, workouts);
            var ws := Items(workouts);
            var members := SortStrings(FirstSeen(ws));
            t.members == members && t.memberCount == |members| && t.perMember == PerMember(ws)
            && t.perMemberSport == PerMemberSport(ws) && t.perMemberIntensity == PerMemberIntensity(ws)
            && t.totalMinutes == SumOf(members, FieldOf(PerMember(ws), Minutes))
            && t.totalDistance == SumOf(members, FieldOf(PerMember(ws), Distance))
            && t.workoutCount == SumOf(members, FieldOf(PerMember(ws), Workouts))
            && t.weeklySeries == WeeklySeries(z, now, ws, members)
            && t.avgHoursPerAthlete == (t.totalMinutes as real / 60.0) / Divisor(members) as real
            && t.avgDistancePerAthlete == t.totalDistance as real / Divisor(members) as real
  {
  }

  /** The sorted labels are sorted, distinct, and exactly the labels of the
      non-null entries, whatever their duration. */
  lemma SortedLabels(ws: seq<Item>)
    ensures var members := SortStrings(FirstSeen(ws));
            SortedLex(members) && Distinct(members)
            && (forall m :: m in members <==> exists w :: w in ws && w.Some? && UserLabel(w.value.user) == m)
  {
    var members := SortStrings(FirstSeen(ws));
    FirstSeenProps(ws);
    SortStringsProps(FirstSeen(ws));
    SortStringsDistinct(FirstSeen(ws));
    forall m ensures m in members <==> m in FirstSeen(ws) {
      assert m in members <==> m in multiset(members);
    }
    forall m | m in FirstSeen(ws)
      ensures exists w :: w in ws && w.Some? && UserLabel(w.value.user) == m
    {
      var w :| w in ws && Label(w) == Some(m);
      assert w.Some?;
    }
    forall w | w in ws && w.Some? ensures UserLabel(w.value.user) in FirstSeen(ws) {
      assert Label(w).value == UserLabel(w.value.user);
    }
  }

  /** The members are sorted, distinct, and exactly the labels of the
      non-null entries, whatever their duration; they are the keys of the
      per-member totals. */
  lemma MembersAreLabels(z: Zone, now: Instant, workouts: Option<seq<Item>>)
    ensures var t := Team(z, now, workouts);
            SortedLex(t.members) && Distinct(t.members)
            && (forall m :: m in t.members <==>
                  exists w :: w in Items(workouts) && w.Some? && UserLabel(w.value.user) == m)
            && t.perMember.Keys == set m | m in t.members
  {
    var ws := Items(workouts);
    TeamFields(z, now, workouts);
    SortedLabels(ws);
    MemberKeys(ws);
  }

  /** The keys of the per-member totals are the sorted labels. */
  lemma MemberKeys(ws: seq<Item>)
    ensures PerMember(ws).Keys == set m | m in SortStrings(FirstSeen(ws))
  {
    var members := SortStrings(FirstSeen(ws));
    SortStringsProps(FirstSeen(ws));
    forall m ensures m in members <==> m in FirstSeen(ws) {
      assert m in members <==> m in multiset(members);
    }
    assert PerMember(ws).Keys == set m | m in FirstSeen(ws);
  }

  /** Without a non-null entry no member is ever added. */
  lemma {:induction false} NoLabelsNoMembers(ws: seq<Item>)
    requires forall w :: w in ws ==> w.None?
    ensures FirstSeen(ws) == []
  {
    if ws != [] {
      NoLabelsNoMembers(ws[..|ws| - 1]);
      assert ws[|ws| - 1] in ws;
    }
  }

  /** A list without any non-null entry has no member; the averages then
      divide by one and are zero, while the member count is 0. */
  lemma EmptyTeam(z: Zone, now: Instant, workouts: Option<seq<Item>>)
    requires forall w :: w in Items(workouts) ==> w.None?
    ensures var t := Team(z, now, workouts);
            t.members == [] && t.memberCount == 0
            && t.totalMinutes == 0 && t.totalDistance == 0 && t.workoutCount == 0
            && t.avgHoursPerAthlete == 0.0 && t.avgDistancePerAthlete == 0.0
  {
    var ws := Items(workouts);
    TeamFields(z, now, workouts);
    NoLabelsNoMembers(ws);
    SortStringsProps(FirstSeen(ws));
    assert SortStrings(FirstSeen(ws)) == [];
  }

  /** The averages divide by the member count, or by one when there is no
      member, while the member count itself is then 0. */
  lemma Averages(z: Zone, now: Instant, workouts: Option<seq<Item>>)
    ensures var t := Team(z, now, workouts);
            var n := if t.memberCount > 0 then t.memberCount else 1;
            t.memberCount == |t.members|
            && t.avgDistancePerAthlete == t.totalDistance as real / n as real
            && t.avgHoursPerAthlete == (t.totalMinutes as real / 60.0) / n as real
  {
    TeamFields(z, now, workouts);
  }

  // ---------- the buckets of a member ----------

  /** The sport bucket that `w` fills for member `m`. */
  function SportOfMember(m: string): Item -> Option<string> {
    (w: Item) => if Label(w) == Some(m) then TeamSport(w) else None
  }

  /** The intensity bucket that `w` fills for member `m`. */
  function IntensityOfMember(m: string): Item -> Option<string> {
    (w: Item) => if Label(w) == Some(m) then IntensityKey(w) else None
  }

  /** Unknown sports go to "OTHER", so every counted minute of a member is
      in one of the member's sport buckets. */
  lemma MemberSports(ws: seq<Item>, m: string)
    requires m in FirstSeen(ws)
    ensures m in PerMember(ws) && m in PerMemberSport(ws)
    ensures MapTotal(PerMemberSport(ws)[m], ALL_SPORTS) == PerMember(ws)[m].minutes
  {
    var minutes := Col(MemberCell(CountedMins), m);
    var sports := PerMemberSport(ws)[m];
    assert sports == Sums(ws, SportCell(m), ALL_SPORTS);
    MapTotalCols(sports, ws, SportCell(m), ALL_SPORTS);
    MyStats.SportsDistinct();
    SportColumns(m);
    ColumnTotal(ws, ALL_SPORTS, SportCell(m), SportOfMember(m), CountedMins);
    forall w | w in ws ensures InKeys(ALL_SPORTS, SportOfMember(m), CountedMins)(w) == minutes(w) {
      if Label(w) == Some(m) {
        SportCellsOf(w);
      }
    }
    SumOfEq(ws, InKeys(ALL_SPORTS, SportOfMember(m), CountedMins), minutes);
  }

  lemma SportColumns(m: string)
    ensures forall w, k :: SportCell(m)(w, k) == if SportOfMember(m)(w) == Some(k) then CountedMins(w) else 0
  {
  }

  lemma LevelColumns(m: string)
    ensures forall w, k :: IntensityCell(m)(w, k) == if IntensityOfMember(m)(w) == Some(k) then CountedMins(w) else 0
  {
  }

  lemma LevelAtMost(w: Item, m: string)
    ensures 0 <= InKeys(INTENSITY_ORDER, IntensityOfMember(m), CountedMins)(w) <= Col(MemberCell(CountedMins), m)(w)
  {
    assert CountedMins(w) >= 0;
    if Label(w) == Some(m) {
      assert Col(MemberCell(CountedMins), m)(w) == CountedMins(w);
    } else {
      assert IntensityOfMember(m)(w) == None;
    }
  }

  /** An unrecognised intensity is in none of the intensity buckets, so
      they hold at most the member's minutes. */
  lemma MemberLevels(ws: seq<Item>, m: string)
    requires m in FirstSeen(ws)
    ensures m in PerMember(ws) && m in PerMemberIntensity(ws)
    ensures 0 <= MapTotal(PerMemberIntensity(ws)[m], INTENSITY_ORDER) <= PerMember(ws)[m].minutes
  {
    var minutes := Col(MemberCell(CountedMins), m);
    var levels := PerMemberIntensity(ws)[m];
    assert levels == Sums(ws, IntensityCell(m), INTENSITY_ORDER);
    MapTotalCols(levels, ws, IntensityCell(m), INTENSITY_ORDER);
    MyStats.LevelsDistinct();
    LevelColumns(m);
    ColumnTotal(ws, INTENSITY_ORDER, IntensityCell(m), IntensityOfMember(m), CountedMins);
    var inLevels := InKeys(INTENSITY_ORDER, IntensityOfMember(m), CountedMins);
    forall w | w in ws ensures 0 <= inLevels(w) <= minutes(w) {
      LevelAtMost(w, m);
    }
    SumOfLe(ws, inLevels, minutes);
    SumOfNonNeg(ws, inLevels);
  }

  // ---------- the team totals ----------

  /** A per-member column summed over the sorted members is the column's
      sum over the entries, a `null` entry adding nothing. */
  lemma OverMembers(ws: seq<Item>, f: Item -> int, g: string -> int)
    requires f(None) == 0
    requires forall k :: k in FirstSeen(ws) ==> g(k) == SumOf(ws, Col(MemberCell(f), k))
    ensures SumOf(SortStrings(FirstSeen(ws)), g) == SumOf(ws, f)
  {
    var keys := FirstSeen(ws);
    SortStringsProps(keys);
    SumOfPerm(SortStrings(keys), keys, g);
    SumOfEq(keys, g, ColSums(ws, MemberCell(f)));
    FirstSeenProps(ws);
    ColumnTotal(ws, keys, MemberCell(f), Label, f);
    SumOfEq(ws, InKeys(keys, Label, f), f);
  }

  /** The team's minutes, distance and workout count, summed member by
      member, are the positive durations, the positive distances and the
      number of entries with a positive duration. */
  lemma TeamTotals(z: Zone, now: Instant, workouts: Option<seq<Item>>)
    ensures var t := Team(z, now, workouts);
            t.totalMinutes == SumOf(Items(workouts), CountedMins)
            && t.totalDistance == SumOf(Items(workouts), Dist)
            && t.workoutCount == SumOf(Items(workouts), WorkoutOf)
  {
    var ws := Items(workouts);
    var pm := PerMember(ws);
    OverMembers(ws, CountedMins, FieldOf(pm, Minutes));
    OverMembers(ws, Dist, FieldOf(pm, Distance));
    OverMembers(ws, WorkoutOf, FieldOf(pm, Workouts));
  }

  // ---------- the weekly series ----------

  /** The rows run over five consecutive weeks, the last one starting at
      `current`; each has a column for every member and no other, holding
      the hours of that member's entries dated in its week. */
  lemma WeeksFromShape(labelOf: Instant -> string, current: Instant, ws: seq<Item>, members: seq<string>)
    ensures var rows := WeeksFrom(labelOf, current, ws, members);
            |rows| == 5 && rows[4].start == current
            && (forall j :: 0 <= j < 5 ==> rows[j].start == AddDays(current, -7 * (4 - j)))
            && (forall j :: 0 <= j < 4 ==> rows[j + 1].start == AddDays(rows[j].start, 7))
            && (forall j :: 0 <= j < 5 ==> rows[j].hours.Keys == set m | m in members)
            && (forall j, m :: 0 <= j < 5 && m in members ==>
                  rows[j].hours[m] == SumOf(ws, Col(WeekCell(rows[j].start, AddDays(rows[j].start, 7)), m)))
  {
    var rows := WeeksFrom(labelOf, current, ws, members);
    forall j | 0 <= j < 5
      ensures rows[j].start == AddDays(current, -7 * (4 - j))
      ensures rows[j].hours.Keys == set m | m in members
      ensures forall m :: m in members ==>
                rows[j].hours[m] == SumOf(ws, Col(WeekCell(rows[j].start, AddDays(rows[j].start, 7)), m))
    {
      WeekRowShape(labelOf, current, ws, members, 4 - j);
    }
  }

  /** The row `i` weeks back starts `7 * i` days before `current` and has
      one column per member, holding that member's sum for its week. */
  lemma WeekRowShape(labelOf: Instant -> string, current: Instant, ws: seq<Item>, members: seq<string>, i: int)
    ensures var r := WeekRowOf(labelOf, current, ws, members, i);
            r.start == AddDays(current, -7 * i)
            && r.hours.Keys == set m | m in members
            && forall m :: m in members ==>
                 r.hours[m] == SumOf(ws, Col(WeekCell(r.start, AddDays(r.start, 7)), m))
  {
  }

  /** Five rows, oldest first, for consecutive weeks starting on Monday
      midnights, the last being the week of `now`; each row has a column
      for every member and no other, holding the hours of the entries of
      that member dated in its week. */
  lemma WeeklyShape(z: Zone, now: Instant, workouts: Option<seq<Item>>)
    ensures var t := Team(z, now, workouts);
            var cur := CalendarDates.StartOfWeek(z, now);
            var rows := t.weeklySeries;
            |rows| == 5 && rows[4].start == cur && cur <= now < AddDays(cur, 7)
            && (forall j :: 0 <= j < 5 ==> IsMidnight(z, rows[j].start) && WeekDay(z, rows[j].start) == 1)
            && (forall j :: 0 <= j < 4 ==> rows[j + 1].start == AddDays(rows[j].start, 7))
            && (forall j :: 0 <= j < 5 ==> rows[j].hours.Keys == set m | m in t.members)
            && (forall j, m :: 0 <= j < 5 && m in t.members ==>
                  rows[j].hours[m] == SumOf(Items(workouts), Col(WeekCell(rows[j].start, AddDays(rows[j].start, 7)), m)))
  {
    var ws := Items(workouts);
    TeamFields(z, now, workouts);
    var members := SortStrings(FirstSeen(ws));
    var cur := CalendarDates.StartOfWeek(z, now);
    MyStats.WeekStartIsCalendarWeek(z, now);
    CalendarDates.StartOfWeekProps(z, now);
    WeeksFromShape(Labeller(z), cur, ws, members);
    var rows := WeeksFrom(Labeller(z), cur, ws, members);
    forall j | 0 <= j < 5 ensures IsMidnight(z, rows[j].start) && WeekDay(z, rows[j].start) == 1 {
      CalendarDates.AddWeeksKeepsWeekStart(z, cur, -(4 - j));
      assert AddDays(cur, 7 * -(4 - j)) == AddDays(cur, -7 * (4 - j));
      CalendarDates.StartOfWeekProps(z, AddDays(cur, 7 * -(4 - j)));
    }
  }

  /** A week's column of a member stays at zero unless an entry of that
      member with a positive duration is dated inside the week. */
  lemma QuietWeek(ws: seq<Item>, lo: Instant, hi: Instant, m: string)
    requires forall w :: w in ws && Label(w) == Some(m) ==> !InWindow(w, lo, hi)
    ensures SumOf(ws, Col(WeekCell(lo, hi), m)) == 0
  {
    SumOfZero(ws, Col(WeekCell(lo, hi), m));
  }

  /** An entry in the week adds its hours, in hundredths, to its member. */
  lemma WeekEntryAdds(ws: seq<Item>, w: Item, lo: Instant, hi: Instant)
    requires InWindow(w, lo, hi)
    ensures SumOf(ws + [w], Col(WeekCell(lo, hi), Label(w).value))
            == SumOf(ws, Col(WeekCell(lo, hi), Label(w).value)) + MyStats.HoursHundredths(Mins(w))
  {
    SumOfSnoc(ws, w, Col(WeekCell(lo, hi), Label(w).value));
  }
}
