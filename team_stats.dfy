/**
 * The team statistics view: one pass over the team's workouts fills, per
 * member, the minute, distance and workout totals and the minutes per
 * intensity and per sport; the members are the sorted labels; the team
 * totals are folds over the members; and a second pass per week fills the
 * hours of each member in each of the last five weeks.
 */
module TeamStats {
  import opened Wrappers
  import opened Strings
  import opened Numbers
  import opened Time
  import opened Folds
  import opened Buckets
  import opened StringOrder
  import opened WorkoutRecords
  import MyStats
  import CalendarDates

  // ---------- what one workout contributes ----------

  /** `memberLabel(w.user)` of a non-null entry. */
  function Label(w: Item): Option<string> {
    if w.Some? then Some(UserLabel(w.value.user)) else None
  }

  /** `Number(w.duration) || 0` */
  function Mins(w: Item): int {
    if w.Some? then OrZero(w.value.duration) else 0
  }

  /** The minutes a workout adds to its member: its duration when positive. */
  function CountedMins(w: Item): int {
    if Mins(w) > 0 then Mins(w) else 0
  }

  /** The workouts a workout adds to its member: one when its duration is positive. */
  function WorkoutOf(w: Item): int {
    if Mins(w) > 0 then 1 else 0
  }

  /** The distance a workout adds to its member: `Number(w.distance) || 0`
      when positive. */
  function Dist(w: Item): int {
    if w.Some? && OrZero(w.value.distance) > 0 then OrZero(w.value.distance) else 0
  }

  /** The first of `cands` whose lower case is that of `s`. */
  function FindLower(cands: seq<string>, s: string): (r: Option<string>)
    ensures r.Some? ==> r.value in cands && ToLower(r.value) == ToLower(s)
    ensures r.None? ==> forall c :: c in cands ==> ToLower(c) != ToLower(s)
  {
    if cands == [] then None
    else if ToLower(cands[0]) == ToLower(s) then Some(cands[0])
    else FindLower(cands[1..], s)
  }

  /** `INTENSITY_ORDER.find(i => i.toLowerCase() === (raw || "").toLowerCase()) || null` */
  function MatchIntensity(raw: Option<string>): Option<string> {
    FindLower(INTENSITY_ORDER, if raw.Some? then raw.value else "")
  }

  /** The intensity bucket of a non-null entry. */
  function IntensityKey(w: Item): Option<string> {
    if w.Some? then MatchIntensity(w.value.intensity) else None
  }

  /** `ALL_SPORTS.includes(w.sport) ? w.sport : "OTHER"` of a non-null entry. */
  function TeamSport(w: Item): Option<string> {
    if w.None? then None
    else if w.value.sport.Some? && w.value.sport.value in ALL_SPORTS then w.value.sport
    else Some("OTHER")
  }

  /** `f(w)` in the column of the member of `w`. */
  function MemberCell(f: Item -> int): (Item, string) -> int {
    (w: Item, k: string) => if Label(w) == Some(k) then f(w) else 0
  }

  /** The minutes of `w` in the intensity bucket `c` of member `k`. */
  function IntensityCell(k: string): (Item, string) -> int {
    (w: Item, c: string) => if Label(w) == Some(k) && IntensityKey(w) == Some(c) then CountedMins(w) else 0
  }

  /** The minutes of `w` in the sport bucket `s` of member `k`. */
  function SportCell(k: string): (Item, string) -> int {
    (w: Item, s: string) => if Label(w) == Some(k) && TeamSport(w) == Some(s) then CountedMins(w) else 0
  }

  // ---------- the members ----------

  /** The keys of `perMember` in the order they were added: each label the
      first time a non-null entry carries it. */
  function FirstSeen(ws: seq<Item>): seq<string> {
    if ws == [] then []
    else
      var p := FirstSeen(ws[..|ws| - 1]);
      var l := Label(ws[|ws| - 1]);
      if l.Some? && l.value !in p then p + [l.value] else p
  }

  lemma FirstSeenPrefix(ws: seq<Item>, i: nat)
    requires i < |ws|
    ensures FirstSeen(ws[..i + 1]) ==
            if Label(ws[i]).Some? && Label(ws[i]).value !in FirstSeen(ws[..i])
            then FirstSeen(ws[..i]) + [Label(ws[i]).value] else FirstSeen(ws[..i])
  {
    assert ws[..i + 1][..i] == ws[..i];
  }

  lemma DistinctSnoc(s: seq<string>, x: string)
    requires Distinct(s) && x !in s
    ensures Distinct(s + [x])
  {
    var r := s + [x];
    forall i, j | 0 <= i < j < |r| ensures r[i] != r[j] {
      assert r[i] == s[i];
    }
  }

  /** The keys are distinct, and they are exactly the labels of the
      non-null entries. */
  lemma {:induction false} FirstSeenProps(ws: seq<Item>)
    ensures Distinct(FirstSeen(ws))
    ensures forall x :: x in ws && x.Some? ==> Label(x).value in FirstSeen(ws)
    ensures forall l :: l in FirstSeen(ws) ==> exists x :: x in ws && Label(x) == Some(l)
  {
    if ws != [] {
      var n := |ws| - 1;
      var p := FirstSeen(ws[..n]);
      FirstSeenProps(ws[..n]);
      assert ws == ws[..n] + [ws[n]];
      if Label(ws[n]).Some? && Label(ws[n]).value !in p {
        DistinctSnoc(p, Label(ws[n]).value);
      }
      forall x | x in ws && x.Some? ensures Label(x).value in FirstSeen(ws) {
        if x != ws[n] {
          assert x in ws[..n];
        }
      }
      forall l | l in FirstSeen(ws) ensures exists x :: x in ws && Label(x) == Some(l) {
        if l in p {
          var x :| x in ws[..n] && Label(x) == Some(l);
          assert x in ws;
        } else {
          assert Label(ws[n]) == Some(l);
        }
      }
    }
  }

  // ---------- the aggregate ----------

  /** `perMember[member]`: `{ minutes, distance, workouts }`. */
  datatype MemberTotals = MemberTotals(minutes: int, distance: int, workouts: int)

  /** The totals of member `k`, as sums over the entries. */
  function MemberTotalsOf(ws: seq<Item>, k: string): MemberTotals {
    MemberTotals(SumOf(ws, Col(MemberCell(CountedMins), k)),
                 SumOf(ws, Col(MemberCell(Dist), k)),
                 SumOf(ws, Col(MemberCell(WorkoutOf), k)))
  }

  function PerMember(ws: seq<Item>): map<string, MemberTotals> {
    map k | k in FirstSeen(ws) :: MemberTotalsOf(ws, k)
  }

  function PerMemberIntensity(ws: seq<Item>): map<string, map<string, int>> {
    NestedSums(ws, IntensityCell, FirstSeen(ws), INTENSITY_ORDER)
  }

  function PerMemberSport(ws: seq<Item>): map<string, map<string, int>> {
    NestedSums(ws, SportCell, FirstSeen(ws), ALL_SPORTS)
  }

  /** A row of the weekly series: its start, the `M/D` label and
      the hours of each member in hundredths of an hour. */
  datatype WeekRow = WeekRow(start: Instant, week: string, hours: map<string, int>)

  /** The result of the aggregation. Minutes and distances are whole
      numbers; the averages are exact quotients. */
  datatype TeamSummary = TeamSummary(
    perMember: map<string, MemberTotals>,
    perMemberIntensity: map<string, map<string, int>>,
    perMemberSport: map<string, map<string, int>>,
    members: seq<string>,
    totalMinutes: int,
    totalDistance: int,
    workoutCount: int,
    memberCount: nat,
    avgHoursPerAthlete: real,
    avgDistancePerAthlete: real,
    weeklySeries: seq<WeekRow>)

  /** `members.length || 1` */
  function Divisor(members: seq<string>): (r: nat)
    ensures r >= 1
  {
    if |members| > 0 then |members| else 1
  }

  function Minutes(t: MemberTotals): int { t.minutes }
  function Distance(t: MemberTotals): int { t.distance }
  function Workouts(t: MemberTotals): int { t.workouts }

  /** A field of each member's totals, 0 for a missing member. */
  function FieldOf(pm: map<string, MemberTotals>, field: MemberTotals -> int): string -> int {
    (m: string) => if m in pm then field(pm[m]) else 0
  }

  /** `${ws.getMonth() + 1}/${ws.getDate()}` */
  function WeekLabel(z: Zone, t: Instant): string {
    var c := CivilFromDays(LocalDay(z, t));
    NatToString(c.month) + "/" + NatToString(c.day)
  }

  /** The week label of each date in the zone `z`. */
  function Labeller(z: Zone): Instant -> string {
    (t: Instant) => WeekLabel(z, t)
  }

  /** The entry has a given, valid date in `[lo, hi)` and a positive duration. */
  predicate InWindow(w: Item, lo: Instant, hi: Instant) {
    w.Some? && DateGiven(w.value.date) && DateValue(w.value.date).Some?
    && lo <= DateValue(w.value.date).value < hi && Mins(w) > 0
  }

  /** The hours, in hundredths, that `w` adds to member `k` in the week `[lo, hi)`. */
  function WeekCell(lo: Instant, hi: Instant): (Item, string) -> int {
    (w: Item, k: string) => if InWindow(w, lo, hi) && Label(w) == Some(k) then MyStats.HoursHundredths(Mins(w)) else 0
  }

  function WeekHoursOf(ws: seq<Item>, lo: Instant, hi: Instant, members: seq<string>): map<string, int> {
    Sums(ws, WeekCell(lo, hi), members)
  }

  /** The row of the week starting `i` weeks before `current`. */
  function WeekRowOf(labelOf: Instant -> string, current: Instant, ws: seq<Item>, members: seq<string>, i: int): WeekRow {
    var lo := AddDays(current, -7 * i);
    WeekRow(lo, labelOf(lo), WeekHoursOf(ws, lo, AddDays(lo, 7), members))
  }

  /** The rows for four weeks before the week starting at `current` through
      that week. */
  function WeeksFrom(labelOf: Instant -> string, current: Instant, ws: seq<Item>, members: seq<string>): seq<WeekRow> {
    seq(5, j => WeekRowOf(labelOf, current, ws, members, 4 - j))
  }

  /** The rows for four weeks ago through the week of `now`. */
  function WeeklySeries(z: Zone, now: Instant, ws: seq<Item>, members: seq<string>): seq<WeekRow> {
    WeeksFrom(Labeller(z), MyStats.WeekStartOf(z, now), ws, members)
  }

  /** The aggregation of lines 46-142, specified by sums over the entries. */
  function Team(z: Zone, now: Instant, workouts: Option<seq<Item>>): TeamSummary {
    var ws := Items(workouts);
    var pm := PerMember(ws);
    var members := SortStrings(FirstSeen(ws));
    var totalMinutes := SumOf(members, FieldOf(pm, Minutes));
    var totalDistance := SumOf(members, FieldOf(pm, Distance));
    TeamSummary(
      pm, PerMemberIntensity(ws), PerMemberSport(ws), members,
      totalMinutes, totalDistance, SumOf(members, FieldOf(pm, Workouts)), |members|,
      (totalMinutes as real / 60.0) / Divisor(members) as real,
      totalDistance as real / Divisor(members) as real,
      WeeklySeries(z, now, ws, members))
  }

  // ---------- the pass over the entries ----------

  /** Each member's totals are the sums over the entries seen so far. */
  ghost predicate MemberRows(pm: map<string, MemberTotals>, done: seq<Item>, keys: seq<string>) {
    pm.Keys == (set k | k in keys) && forall k :: k in keys ==> pm[k] == MemberTotalsOf(done, k)
  }

  ghost predicate Rows(done: seq<Item>, pm: map<string, MemberTotals>, pi: map<string, map<string, int>>,
                       ps: map<string, map<string, int>>, keys: seq<string>)
  {
    MemberRows(pm, done, keys)
    && NestedBucket(pi, done, IntensityCell, keys, INTENSITY_ORDER)
    && NestedBucket(ps, done, SportCell, keys, ALL_SPORTS)
  }

  /** The partial results after the entries `done`. */
  ghost predicate TeamTally(done: seq<Item>, pm: map<string, MemberTotals>, pi: map<string, map<string, int>>,
                            ps: map<string, map<string, int>>, keys: seq<string>)
  {
    keys == FirstSeen(done) && Rows(done, pm, pi, ps, keys)
  }

  /** A member not seen yet has nothing in any of its buckets. */
  lemma NewLabelEmpty(done: seq<Item>, member: string)
    requires member !in FirstSeen(done)
    ensures MemberTotalsOf(done, member) == MemberTotals(0, 0, 0)
    ensures forall c :: c in INTENSITY_ORDER ==> SumOf(done, Col(IntensityCell(member), c)) == 0
    ensures forall s :: s in ALL_SPORTS ==> SumOf(done, Col(SportCell(member), s)) == 0
  {
    FirstSeenProps(done);
    assert forall x :: x in done ==> Label(x) != Some(member);
    SumOfZero(done, Col(MemberCell(CountedMins), member));
    SumOfZero(done, Col(MemberCell(Dist), member));
    SumOfZero(done, Col(MemberCell(WorkoutOf), member));
    forall c | c in INTENSITY_ORDER ensures SumOf(done, Col(IntensityCell(member), c)) == 0 {
      SumOfZero(done, Col(IntensityCell(member), c));
    }
    forall s | s in ALL_SPORTS ensures SumOf(done, Col(SportCell(member), s)) == 0 {
      SumOfZero(done, Col(SportCell(member), s));
    }
  }

  /** A new member starts with zero rows. */
  lemma GrowRows(done: seq<Item>, pm: map<string, MemberTotals>, pi: map<string, map<string, int>>,
                 ps: map<string, map<string, int>>, keys: seq<string>, member: string)
    requires TeamTally(done, pm, pi, ps, keys) && member !in keys
    ensures Rows(done, pm[member := MemberTotals(0, 0, 0)],
                 pi[member := map c | c in INTENSITY_ORDER :: 0],
                 ps[member := map s | s in ALL_SPORTS :: 0], keys + [member])
  {
    NewLabelEmpty(done, member);
    GrowMember(pm, done, keys, member);
    NestedGrow(pi, done, IntensityCell, keys, INTENSITY_ORDER, member);
    NestedGrow(ps, done, SportCell, keys, ALL_SPORTS, member);
  }

  lemma GrowMember(pm: map<string, MemberTotals>, done: seq<Item>, keys: seq<string>, member: string)
    requires MemberRows(pm, done, keys) && member !in keys
    requires MemberTotalsOf(done, member) == MemberTotals(0, 0, 0)
    ensures MemberRows(pm[member := MemberTotals(0, 0, 0)], done, keys + [member])
  {
    forall x | x in keys + [member] ensures pm[member := MemberTotals(0, 0, 0)][x] == MemberTotalsOf(done, x) {
      if x != member {
        assert x in keys;
      }
    }
  }

  /** Lines 53-57: the member of entry `i` gets its three rows if it has
      none yet, and becomes the last key when it is new. */
  method JoinMember(ws: seq<Item>, i: nat, pm: map<string, MemberTotals>, pi: map<string, map<string, int>>,
                    ps: map<string, map<string, int>>, keys: seq<string>)
    returns (pm': map<string, MemberTotals>, pi': map<string, map<string, int>>,
             ps': map<string, map<string, int>>, keys': seq<string>)
    requires i < |ws| && ws[i].Some?
    requires TeamTally(ws[..i], pm, pi, ps, keys)
    ensures keys' == FirstSeen(ws[..i + 1]) && Label(ws[i]).value in keys'
    ensures Rows(ws[..i], pm', pi', ps', keys')
  {
    FirstSeenPrefix(ws, i);
    var member := UserLabel(ws[i].value.user);
    pm', pi', ps', keys' := pm, pi, ps, keys;
    if member !in pm {
      pm' := pm[member := MemberTotals(0, 0, 0)];
      keys' := keys + [member];
    }
    if member !in pi {
      pi' := pi[member := map c | c in INTENSITY_ORDER :: 0];
    }
    if member !in ps {
      ps' := ps[member := map s | s in ALL_SPORTS :: 0];
    }
    if member !in keys {
      GrowRows(ws[..i], pm, pi, ps, keys, member);
    }
  }

  /** The member row of entry `i` adds its cells; the other rows stay. */
  lemma MemberRowsStep(pm: map<string, MemberTotals>, ws: seq<Item>, i: nat, keys: seq<string>, member: string,
                       t: MemberTotals)
    requires i < |ws| && Label(ws[i]) == Some(member) && member in keys
    requires MemberRows(pm, ws[..i], keys)
    requires t == MemberTotals(pm[member].minutes + CountedMins(ws[i]), pm[member].distance + Dist(ws[i]),
                               pm[member].workouts + WorkoutOf(ws[i]))
    ensures MemberRows(pm[member := t], ws[..i + 1], keys)
  {
    forall k | k in keys ensures pm[member := t][k] == MemberTotalsOf(ws[..i + 1], k) {
      SumOfPrefix(ws, i, Col(MemberCell(CountedMins), k));
      SumOfPrefix(ws, i, Col(MemberCell(Dist), k));
      SumOfPrefix(ws, i, Col(MemberCell(WorkoutOf), k));
    }
  }

  /** Lines 58-68: the minutes, workouts and buckets of the member of entry
      `i` grow when its duration is positive, its distance when that is. */
  method CountEntry(ws: seq<Item>, i: nat, pm: map<string, MemberTotals>, pi: map<string, map<string, int>>,
                    ps: map<string, map<string, int>>, ghost keys: seq<string>)
    returns (pm': map<string, MemberTotals>, pi': map<string, map<string, int>>, ps': map<string, map<string, int>>)
    requires i < |ws| && ws[i].Some? && Label(ws[i]).value in keys
    requires Rows(ws[..i], pm, pi, ps, keys)
    ensures Rows(ws[..i + 1], pm', pi', ps', keys)
  {
    pm' := CountMember(ws, i, pm, keys);
    pi' := CountIntensity(ws, i, pi, keys);
    ps' := CountSport(ws, i, ps, keys);
  }

  /** `perMember[label].minutes += mins; perMember[label].workouts += 1`
      when `mins > 0`, and `perMember[label].distance += dist` when `dist > 0`. */
  method CountMember(ws: seq<Item>, i: nat, pm: map<string, MemberTotals>, ghost keys: seq<string>)
    returns (pm': map<string, MemberTotals>)
    requires i < |ws| && ws[i].Some? && Label(ws[i]).value in keys
    requires MemberRows(pm, ws[..i], keys)
    ensures MemberRows(pm', ws[..i + 1], keys)
  {
    var w := ws[i].value;
    var member := UserLabel(w.user);
    var mins := OrZero(w.duration);
    var dist := OrZero(w.distance);
    var t := pm[member];
    if mins > 0 {
      t := t.(minutes := t.minutes + mins, workouts := t.workouts + 1);
    }
    if dist > 0 {
      t := t.(distance := t.distance + dist);
    }
    MemberRowsStep(pm, ws, i, keys, member, t);
    pm' := pm[member := t];
  }

  /** The cells of a non-null entry: its minutes in its member's
      intensity bucket, when it has one. */
  lemma IntensityCellsOf(w: Item)
    requires w.Some?
    ensures forall r, c :: IntensityCell(r)(w, c) == if Label(w) == Some(r) && IntensityKey(w) == Some(c) then CountedMins(w) else 0
  {
  }

  /** A recognised intensity is one of the listed ones. */
  lemma IntensityKeyListed(w: Item)
    ensures IntensityKey(w).Some? ==> IntensityKey(w).value in INTENSITY_ORDER
  {
  }

  /** The cells of a non-null entry: its minutes in its member's sport
      bucket, which it always has. */
  lemma SportCellsOf(w: Item)
    requires w.Some?
    ensures forall r, s :: SportCell(r)(w, s) == if Label(w) == Some(r) && TeamSport(w) == Some(s) then CountedMins(w) else 0
    ensures TeamSport(w).Some? && TeamSport(w).value in ALL_SPORTS
  {
  }

  /** `perMemberIntensity[label][intensity] += mins` when `mins > 0` and the
      intensity is recognised. */
  method CountIntensity(ws: seq<Item>, i: nat, pi: map<string, map<string, int>>, ghost keys: seq<string>)
    returns (pi': map<string, map<string, int>>)
    requires i < |ws| && ws[i].Some? && Label(ws[i]).value in keys
    requires NestedBucket(pi, ws[..i], IntensityCell, keys, INTENSITY_ORDER)
    ensures NestedBucket(pi', ws[..i + 1], IntensityCell, keys, INTENSITY_ORDER)
  {
    IntensityCellsOf(ws[i]);
    IntensityKeyListed(ws[i]);
    var w := ws[i].value;
    var member := UserLabel(w.user);
    var mins := OrZero(w.duration);
    var intensity := MatchIntensity(w.intensity);
    if mins > 0 {
      pi' := AddToNested(pi, Some(member), intensity, mins, ws, i, IntensityCell, keys, INTENSITY_ORDER);
    } else {
      pi' := pi;
      NestedOthers(pi, pi, ws, i, IntensityCell, keys, INTENSITY_ORDER, None);
    }
  }

  /** `perMemberSport[label][sport] += mins` when `mins > 0`. */
  method CountSport(ws: seq<Item>, i: nat, ps: map<string, map<string, int>>, ghost keys: seq<string>)
    returns (ps': map<string, map<string, int>>)
    requires i < |ws| && ws[i].Some? && Label(ws[i]).value in keys
    requires NestedBucket(ps, ws[..i], SportCell, keys, ALL_SPORTS)
    ensures NestedBucket(ps', ws[..i + 1], SportCell, keys, ALL_SPORTS)
  {
    SportCellsOf(ws[i]);
    var w := ws[i].value;
    var member := UserLabel(w.user);
    var mins := OrZero(w.duration);
    var sport := if w.sport.Some? && w.sport.value in ALL_SPORTS then w.sport.value else "OTHER";
    if mins > 0 {
      ps' := AddToNested(ps, Some(member), Some(sport), mins, ws, i, SportCell, keys, ALL_SPORTS);
    } else {
      ps' := ps;
      NestedOthers(ps, ps, ws, i, SportCell, keys, ALL_SPORTS, None);
    }
  }

  /** A `null` entry is skipped. */
  lemma SkipNull(ws: seq<Item>, i: nat, pm: map<string, MemberTotals>, pi: map<string, map<string, int>>,
                 ps: map<string, map<string, int>>, keys: seq<string>)
    requires i < |ws| && ws[i].None? && TeamTally(ws[..i], pm, pi, ps, keys)
    ensures TeamTally(ws[..i + 1], pm, pi, ps, keys)
  {
    FirstSeenPrefix(ws, i);
    forall k | k in keys ensures pm[k] == MemberTotalsOf(ws[..i + 1], k) {
      SumOfPrefix(ws, i, Col(MemberCell(CountedMins), k));
      SumOfPrefix(ws, i, Col(MemberCell(Dist), k));
      SumOfPrefix(ws, i, Col(MemberCell(WorkoutOf), k));
    }
    NestedOthers(pi, pi, ws, i, IntensityCell, keys, INTENSITY_ORDER, None);
    NestedOthers(ps, ps, ws, i, SportCell, keys, ALL_SPORTS, None);
  }

  /** The `forEach` callback of lines 52-73 applied to entry `i`. */
  method Visit(ws: seq<Item>, i: nat, pm: map<string, MemberTotals>, pi: map<string, map<string, int>>,
               ps: map<string, map<string, int>>, keys: seq<string>)
    returns (pm': map<string, MemberTotals>, pi': map<string, map<string, int>>,
             ps': map<string, map<string, int>>, keys': seq<string>)
    requires i < |ws| && TeamTally(ws[..i], pm, pi, ps, keys)
    ensures TeamTally(ws[..i + 1], pm', pi', ps', keys')
  {
    if ws[i].None? {
      SkipNull(ws, i, pm, pi, ps, keys);
      pm', pi', ps', keys' := pm, pi, ps, keys;
    } else {
      pm', pi', ps', keys' := JoinMember(ws, i, pm, pi, ps, keys);
      pm', pi', ps' := CountEntry(ws, i, pm', pi', ps', keys');
    }
  }

  lemma MemberRowsDone(pm: map<string, MemberTotals>, ws: seq<Item>)
    requires MemberRows(pm, ws, FirstSeen(ws))
    ensures pm == PerMember(ws)
  {
  }

  /** Lines 107-128: the start of the current week, then for each of the
      five weeks a row of zero hours per member and one pass over the
      entries. */
  method Weekly(z: Zone, now: Instant, ws: seq<Item>, members: seq<string>) returns (weeks: seq<WeekRow>)
    ensures weeks == WeeklySeries(z, now, ws, members)
  {
    var currentWeekStart := MyStats.WeekStartOf(z, now);
    weeks := WeeksOf(Labeller(z), currentWeekStart, ws, members);
  }

  /** The loop of lines 112-128, with the label of each week's start given
      by `labelOf`. */
  method WeeksOf(labelOf: Instant -> string, currentWeekStart: Instant, ws: seq<Item>, members: seq<string>) returns (weeks: seq<WeekRow>)
    ensures weeks == WeeksFrom(labelOf, currentWeekStart, ws, members)
  {
    weeks := [];
    var i := 4;
    while i >= 0
      invariant -1 <= i <= 4
      invariant |weeks| == 4 - i
      invariant forall j :: 0 <= j < 4 - i ==> weeks[j] == WeekRowOf(labelOf, currentWeekStart, ws, members, 4 - j)
    {
      var lo := AddDays(currentWeekStart, -7 * i);
      var hi := AddDays(lo, 7);
      var hours := WeekHours(ws, lo, hi, members);
      var row := WeekRow(lo, labelOf(lo), hours);
      assert row == WeekRowOf(labelOf, currentWeekStart, ws, members, i);
      weeks := weeks + [row];
      i := i - 1;
    }
  }

  /** Lines 119-126 for one entry: the member and the hours it adds to the
      week `[lo, hi)`, or no member when it adds nothing. */
  method WeekEntry(w: Item, lo: Instant, hi: Instant, row: map<string, int>, members: seq<string>)
    returns (key: Option<string>, delta: int)
    requires row.Keys == set k | k in members
    ensures key.Some? ==> key.value in members
    ensures forall k :: k in members ==> WeekCell(lo, hi)(w, k) == if key == Some(k) then delta else 0
  {
    key, delta := None, 0;
    if w.Some? && DateGiven(w.value.date) && DateValue(w.value.date).Some? {
      var d := DateValue(w.value.date).value;
      if lo <= d < hi {
        var mins := OrZero(w.value.duration);
        if mins > 0 {
          var member := UserLabel(w.value.user);
          if member in row {
            key := Some(member);
            delta := MyStats.HoursHundredths(mins);
          }
        }
      }
    }
    assert key.Some? ==> key == Label(w) && InWindow(w, lo, hi) && delta == MyStats.HoursHundredths(Mins(w));
    assert key.None? ==> !InWindow(w, lo, hi) || Label(w).value !in members;
  }

  /** Lines 117-126: one week's hours per member. */
  method WeekHours(ws: seq<Item>, lo: Instant, hi: Instant, members: seq<string>) returns (row: map<string, int>)
    ensures row == WeekHoursOf(ws, lo, hi, members)
  {
    row := map k | k in members :: 0;
    BucketStart(ws[..0], WeekCell(lo, hi), members);
    var j := 0;
    while j < |ws|
      invariant j <= |ws|
      invariant Bucket(row, ws[..j], WeekCell(lo, hi), members)
    {
      var key, delta := WeekEntry(ws[j], lo, hi, row, members);
      row := AddTo(row, key, delta, ws, j, WeekCell(lo, hi), members);
      j := j + 1;
    }
    assert ws[..j] == ws;
    BucketIsMap(row, ws, WeekCell(lo, hi), members);
  }

  /** The `useMemo` aggregation of lines 46-142. */
  method Aggregate(z: Zone, now: Instant, workouts: Option<seq<Item>>) returns (r: TeamSummary)
    ensures r == Team(z, now, workouts)
  {
    var ws := Items(workouts);
    var pm: map<string, MemberTotals> := map[];
    var pi: map<string, map<string, int>> := map[];
    var ps: map<string, map<string, int>> := map[];
    var keys: seq<string> := [];
    var i := 0;
    while i < |ws|
      invariant i <= |ws|
      invariant TeamTally(ws[..i], pm, pi, ps, keys)
    {
      pm, pi, ps, keys := Visit(ws, i, pm, pi, ps, keys);
      i := i + 1;
    }
    assert ws[..i] == ws;
    MemberRowsDone(pm, ws);
    NestedIsMap(pi, ws, IntensityCell, FirstSeen(ws), INTENSITY_ORDER);
    NestedIsMap(ps, ws, SportCell, FirstSeen(ws), ALL_SPORTS);
    var members := SortStrings(keys);
    var totalMinutes := SumOf(members, FieldOf(pm, Minutes));
    var totalDistance := SumOf(members, FieldOf(pm, Distance));
    var workoutCount := SumOf(members, FieldOf(pm, Workouts));
    var divisor := if |members| > 0 then |members| else 1;
    var weeks := Weekly(z, now, ws, members);
    r := TeamSummary(pm, pi, ps, members, totalMinutes, totalDistance, workoutCount, |members|,
                     (totalMinutes as real / 60.0) / divisor as real, totalDistance as real / divisor as real, weeks);
  }
}
