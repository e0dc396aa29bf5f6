/**
 * The overlap layout of one day column: the day's timed events sorted by
 * start, placed greedily into lanes (an event goes into the first lane whose
 * last event has ended by its start, or into a new lane), then listed lane
 * by lane with their lane index and the day's lane count.
 */
module CalendarLayout {
  import opened Wrappers
  import opened Seqs
  import opened Sorting
  import opened Time
  import opened CalendarEvents

  /** The sort key `a.start - b.start`; the day's events all have valid starts. */
  function StartKey(e: Event): int {
    if e.start.At? then e.start.ms else 0
  }

  function StartsOn(z: Zone, day: Instant): Event -> bool {
    (e: Event) => e.start.At? && SameDay(z, e.start.ms, day)
  }

  /** `timedEvents.filter(e => sameDay(e.start, day)).sort((a, b) => a.start - b.start)` */
  function EventsForDay(z: Zone, timed: seq<Event>, day: Instant): seq<Event> {
    SortByKey(Filter(timed, StartsOn(z, day)), StartKey)
  }

  /** The day's events are the timed events starting on that day, each as
      often as in the input, ordered by start. */
  lemma EventsForDayProps(z: Zone, timed: seq<Event>, day: Instant)
    ensures multiset(EventsForDay(z, timed, day)) == multiset(Filter(timed, StartsOn(z, day)))
    ensures Sorted(EventsForDay(z, timed, day), StartKey)
    ensures forall e :: e in EventsForDay(z, timed, day) ==>
              e in timed && e.start.At? && SameDay(z, e.start.ms, day)
  {
    var f := Filter(timed, StartsOn(z, day));
    SortByKeyProps(f, StartKey);
    forall e | e in EventsForDay(z, timed, day)
      ensures e in timed && e.start.At? && SameDay(z, e.start.ms, day)
    {
      assert e in multiset(f);
      var k :| 0 <= k < |f| && f[k] == e;
    }
  }

  // ---------- lanes ----------

  /** `lane[lane.length - 1].end <= ev.start` */
  predicate Fits(lane: seq<Event>, ev: Event)
    requires lane != []
  {
    Le(lane[|lane| - 1].end, ev.start)
  }

  predicate NonEmptyLanes(lanes: seq<seq<Event>>) {
    forall i :: 0 <= i < |lanes| ==> lanes[i] != []
  }

  /** The first lane, from `from` on, that `ev` fits into. */
  function FirstFit(lanes: seq<seq<Event>>, ev: Event, from: nat): (r: Option<nat>)
    requires NonEmptyLanes(lanes) && from <= |lanes|
    ensures r.Some? ==> from <= r.value < |lanes| && Fits(lanes[r.value], ev)
    ensures r.Some? ==> forall j :: from <= j < r.value ==> !Fits(lanes[j], ev)
    ensures r.None? ==> forall j :: from <= j < |lanes| ==> !Fits(lanes[j], ev)
    decreases |lanes| - from
  {
    if from == |lanes| then None
    else if Fits(lanes[from], ev) then Some(from)
    else FirstFit(lanes, ev, from + 1)
  }

  /** One step of the greedy placement. */
  function Place(lanes: seq<seq<Event>>, ev: Event): (r: seq<seq<Event>>)
    requires NonEmptyLanes(lanes)
    ensures NonEmptyLanes(r)
  {
    var f := FirstFit(lanes, ev, 0);
    if f.Some? then lanes[f.value := lanes[f.value] + [ev]] else lanes + [[ev]]
  }

  /** The lanes after placing `evs` in order. */
  function LanesOf(evs: seq<Event>): (r: seq<seq<Event>>)
    ensures NonEmptyLanes(r)
  {
    if evs == [] then [] else Place(LanesOf(evs[..|evs| - 1]), evs[|evs| - 1])
  }

  /** Within a lane, each event ends no later than the next one starts. */
  predicate LaneOrdered(lane: seq<Event>) {
    forall k :: 0 <= k < |lane| - 1 ==> Le(lane[k].end, lane[k + 1].start)
  }

  /** No lane holds two overlapping consecutive events. */
  lemma {:induction false} LanesOrdered(evs: seq<Event>)
    ensures forall i :: 0 <= i < |LanesOf(evs)| ==> LaneOrdered(LanesOf(evs)[i])
    decreases |evs|
  {
    if evs != [] {
      var prev := LanesOf(evs[..|evs| - 1]);
      var ev := evs[|evs| - 1];
      LanesOrdered(evs[..|evs| - 1]);
      var f := FirstFit(prev, ev, 0);
      if f.Some? {
        var lane := prev[f.value];
        forall k | 0 <= k < |lane + [ev]| - 1
          ensures Le((lane + [ev])[k].end, (lane + [ev])[k + 1].start)
        {
          if k < |lane| - 1 {
            assert (lane + [ev])[k] == lane[k] && (lane + [ev])[k + 1] == lane[k + 1];
          }
        }
      }
    }
  }

  /** All events in the lanes, counted with multiplicity. */
  function LanesMultiset(lanes: seq<seq<Event>>): multiset<Event> {
    if lanes == [] then multiset{}
    else LanesMultiset(lanes[..|lanes| - 1]) + multiset(lanes[|lanes| - 1])
  }

  lemma {:induction false} LanesMultisetUpdate(lanes: seq<seq<Event>>, j: nat, x: seq<Event>)
    requires j < |lanes|
    ensures LanesMultiset(lanes[j := x]) + multiset(lanes[j]) == LanesMultiset(lanes) + multiset(x)
    decreases |lanes|
  {
    var n := |lanes| - 1;
    var u := lanes[j := x];
    assert u != [] && |u| - 1 == n;
    if j < n {
      var a := lanes[..n];
      assert u[..n] == a[j := x];
      assert u[n] == lanes[n] && a[j] == lanes[j];
      LanesMultisetUpdate(a, j, x);
      assert LanesMultiset(a[j := x]) + multiset(lanes[j]) == LanesMultiset(a) + multiset(x);
      assert LanesMultiset(u) == LanesMultiset(a[j := x]) + multiset(lanes[n]);
      assert LanesMultiset(lanes) == LanesMultiset(a) + multiset(lanes[n]);
      var lhs := LanesMultiset(u) + multiset(lanes[j]);
      var rhs := LanesMultiset(lanes) + multiset(x);
      forall e ensures lhs[e] == rhs[e] {
        assert lhs[e] == LanesMultiset(a[j := x])[e] + multiset(lanes[j])[e] + multiset(lanes[n])[e];
        assert rhs[e] == LanesMultiset(a)[e] + multiset(lanes[n])[e] + multiset(x)[e];
        assert (LanesMultiset(a[j := x]) + multiset(lanes[j]))[e] == (LanesMultiset(a) + multiset(x))[e];
      }
      assert lhs == rhs;
    } else {
      assert u[..n] == lanes[..n];
    }
  }

  lemma PlaceMultiset(lanes: seq<seq<Event>>, ev: Event)
    requires NonEmptyLanes(lanes)
    ensures LanesMultiset(Place(lanes, ev)) == LanesMultiset(lanes) + multiset{ev}
  {
    var f := FirstFit(lanes, ev, 0);
    if f.Some? {
      var j := f.value;
      var x := lanes[j] + [ev];
      LanesMultisetUpdate(lanes, j, x);
      assert multiset(x) == multiset(lanes[j]) + multiset{ev};
      var lhs := LanesMultiset(Place(lanes, ev));
      var rhs := LanesMultiset(lanes) + multiset{ev};
      forall e ensures lhs[e] == rhs[e] {
        assert (LanesMultiset(lanes[j := x]) + multiset(lanes[j]))[e] == (LanesMultiset(lanes) + multiset(x))[e];
      }
      assert lhs == rhs;
    } else {
      var r := lanes + [[ev]];
      assert r[..|lanes|] == lanes && r[|lanes|] == [ev];
      assert LanesMultiset(r) == LanesMultiset(lanes) + multiset([ev]);
    }
  }

  /** Each event of the day is placed exactly once. */
  lemma {:induction false} LanesKeepEvents(evs: seq<Event>)
    ensures LanesMultiset(LanesOf(evs)) == multiset(evs)
    decreases |evs|
  {
    if evs != [] {
      var init := evs[..|evs| - 1];
      var ev := evs[|evs| - 1];
      LanesKeepEvents(init);
      assert evs == init + [ev];
      assert multiset(evs) == multiset(init) + multiset{ev};
      PlaceMultiset(LanesOf(init), ev);
    }
  }

  /** There are never more lanes than events. */
  lemma {:induction false} LaneCountBound(evs: seq<Event>)
    ensures |LanesOf(evs)| <= |evs|
    ensures evs != [] ==> |LanesOf(evs)| >= 1
    decreases |evs|
  {
    if evs != [] { LaneCountBound(evs[..|evs| - 1]); }
  }

  // ---------- the positioned list ----------

  datatype Positioned = Positioned(ev: Event, laneIdx: int, laneCount: int)

  function LaneRow(lane: seq<Event>, laneIdx: int, laneCount: int): (r: seq<Positioned>)
    ensures |r| == |lane|
    ensures forall k :: 0 <= k < |r| ==> r[k] == Positioned(lane[k], laneIdx, laneCount)
  {
    seq(|lane|, k requires 0 <= k < |lane| => Positioned(lane[k], laneIdx, laneCount))
  }

  /** The placements of the first `m` lanes, lane by lane. */
  function Flatten(lanes: seq<seq<Event>>, m: nat, laneCount: int): seq<Positioned>
    requires m <= |lanes|
  {
    if m == 0 then [] else Flatten(lanes, m - 1, laneCount) + LaneRow(lanes[m - 1], m - 1, laneCount)
  }

  function EventsOf(ps: seq<Positioned>): (r: seq<Event>)
    ensures |r| == |ps| && forall k :: 0 <= k < |ps| ==> r[k] == ps[k].ev
  {
    seq(|ps|, k requires 0 <= k < |ps| => ps[k].ev)
  }

  lemma EventsOfConcat(a: seq<Positioned>, b: seq<Positioned>)
    ensures EventsOf(a + b) == EventsOf(a) + EventsOf(b)
  {
  }

  lemma {:induction false} FlattenProps(lanes: seq<seq<Event>>, m: nat)
    requires m <= |lanes|
    ensures multiset(EventsOf(Flatten(lanes, m, |lanes|))) == LanesMultiset(lanes[..m])
    ensures forall p :: p in Flatten(lanes, m, |lanes|) ==>
              0 <= p.laneIdx < m && p.laneCount == |lanes|
    decreases m
  {
    if m > 0 {
      FlattenProps(lanes, m - 1);
      var row := LaneRow(lanes[m - 1], m - 1, |lanes|);
      EventsOfConcat(Flatten(lanes, m - 1, |lanes|), row);
      assert EventsOf(row) == lanes[m - 1];
      assert lanes[..m][..m - 1] == lanes[..m - 1];
    }
  }

  /** `layoutDayEvents(day)` as a value. */
  function Layout(z: Zone, timed: seq<Event>, day: Instant): seq<Positioned> {
    var lanes := LanesOf(EventsForDay(z, timed, day));
    Flatten(lanes, |lanes|, |lanes|)
  }

  /** The layout lists each of the day's timed events exactly once, with a
      lane index below the day's lane count, which is the number of lanes. */
  lemma LayoutProps(z: Zone, timed: seq<Event>, day: Instant)
    ensures multiset(EventsOf(Layout(z, timed, day))) == multiset(Filter(timed, StartsOn(z, day)))
    ensures forall p :: p in Layout(z, timed, day) ==>
              0 <= p.laneIdx < p.laneCount == |LanesOf(EventsForDay(z, timed, day))|
  {
    var evs := EventsForDay(z, timed, day);
    var lanes := LanesOf(evs);
    FlattenProps(lanes, |lanes|);
    assert lanes[..|lanes|] == lanes;
    LanesKeepEvents(evs);
    EventsForDayProps(z, timed, day);
  }

  /** `layoutDayEvents`: the greedy placement in nested loops, then the
      listing of the lanes. */
  method LayoutDayEvents(z: Zone, timed: seq<Event>, day: Instant) returns (positioned: seq<Positioned>)
    ensures positioned == Layout(z, timed, day)
  {
    var evs := EventsForDay(z, timed, day);
    var lanes: seq<seq<Event>> := [];
    var k := 0;
    while k < |evs|
      invariant 0 <= k <= |evs|
      invariant lanes == LanesOf(evs[..k])
    {
      lanes := PlaceEvent(lanes, evs[k]);
      assert evs[..k + 1][..k] == evs[..k];
      k := k + 1;
    }
    assert evs[..|evs|] == evs;
    positioned := ListLanes(lanes);
  }

  /** The inner loop of the placement: the first lane whose last event ends
      by the start of `ev` takes it, and a new lane is opened otherwise. */
  method PlaceEvent(lanes: seq<seq<Event>>, ev: Event) returns (lanes': seq<seq<Event>>)
    requires NonEmptyLanes(lanes)
    ensures lanes' == Place(lanes, ev)
  {
    lanes' := lanes;
    var placed := false;
    var j := 0;
    while j < |lanes| && !placed
      invariant 0 <= j <= |lanes|
      invariant !placed ==> lanes' == lanes && FirstFit(lanes, ev, 0) == FirstFit(lanes, ev, j)
      invariant placed ==> lanes' == Place(lanes, ev)
      decreases if placed then 0 else 1, |lanes| - j
    {
      if lanes[j][|lanes[j]| - 1].end.At? && ev.start.At?
         && lanes[j][|lanes[j]| - 1].end.ms <= ev.start.ms {
        lanes' := lanes[j := lanes[j] + [ev]];
        placed := true;
      } else {
        j := j + 1;
      }
    }
    if !placed {
      lanes' := lanes + [[ev]];
    }
  }

  /** The listing of the lanes: every event of lane `i` with lane index `i`
      and the lane count. */
  method ListLanes(lanes: seq<seq<Event>>) returns (positioned: seq<Positioned>)
    ensures positioned == Flatten(lanes, |lanes|, |lanes|)
  {
    positioned := [];
    var i := 0;
    while i < |lanes|
      invariant 0 <= i <= |lanes|
      invariant positioned == Flatten(lanes, i, |lanes|)
    {
      var lane := lanes[i];
      var m := 0;
      while m < |lane|
        invariant 0 <= m <= |lane|
        invariant positioned == Flatten(lanes, i, |lanes|) + LaneRow(lane[..m], i, |lanes|)
      {
        positioned := positioned + [Positioned(lane[m], i, |lanes|)];
        assert LaneRow(lane[..m + 1], i, |lanes|) == LaneRow(lane[..m], i, |lanes|) + [Positioned(lane[m], i, |lanes|)];
        m := m + 1;
      }
      assert lane[..|lane|] == lane;
      i := i + 1;
    }
  }
}
