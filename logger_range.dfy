/**
 * Time ranges of the logger's groups and the shared timeline (logger/app.js
 * `getGroupRangeFromData`, `updateGroupRangeFromData`, `getGroupRange`,
 * `alignGroupsToGlobalTimeline`). A group's range is the least and greatest time among the
 * points of its listed series; alignment gives every group with data the same display start,
 * the latest end over all groups minus the longest duration.
 */
module LoggerRange {
  import opened Wrappers
  import opened LoggerStore

  datatype Range = Range(minTime: int, maxTime: int)

  /** `Math.max(0, maxTime - minTime)`. */
  function Duration(r: Range): nat {
    if r.maxTime >= r.minTime then r.maxTime - r.minTime else 0
  }

  /** One step of the `Math.min`/`Math.max` accumulation. */
  function Extend(r: Option<Range>, t: int): Range {
    match r
    case None => Range(t, t)
    case Some(x) => Range(if t < x.minTime then t else x.minTime, if t > x.maxTime then t else x.maxTime)
  }

  /** The accumulated range of a list of times, `null` when there is none. */
  function RangeOf(ts: seq<int>): Option<Range>
    decreases |ts|
  {
    if ts == [] then None else Some(Extend(RangeOf(ts[..|ts| - 1]), ts[|ts| - 1]))
  }

  /** The range of a list is absent exactly for the empty list, and otherwise its least and greatest element. */
  lemma {:induction false} RangeOfSpec(ts: seq<int>)
    ensures RangeOf(ts).None? <==> ts == []
    ensures RangeOf(ts).Some? ==>
              && RangeOf(ts).value.minTime in ts && RangeOf(ts).value.maxTime in ts
              && forall i :: 0 <= i < |ts| ==> RangeOf(ts).value.minTime <= ts[i] <= RangeOf(ts).value.maxTime
    decreases |ts|
  {
    if ts != [] {
      var init := ts[..|ts| - 1];
      RangeOfSpec(init);
      assert forall i :: 0 <= i < |init| ==> init[i] == ts[i];
      assert ts == init + [ts[|ts| - 1]];
    }
  }

  lemma {:induction false} RangeOfSnoc(ts: seq<int>, t: int)
    ensures RangeOf(ts + [t]) == Some(Extend(RangeOf(ts), t))
  {
    assert (ts + [t])[..|ts|] == ts;
  }

  function Times(pts: seq<Point>): (r: seq<int>)
    ensures |r| == |pts|
    ensures forall i :: 0 <= i < |pts| ==> r[i] == pts[i].t
  {
    seq(|pts|, i requires 0 <= i < |pts| => pts[i].t)
  }

  /** `group.graph.data.get(series.id) || []`. */
  function PointsOf(g: Group, id: nat): seq<Point> {
    if id in g.data then g.data[id] else []
  }

  /** The times of the points of the listed series, series by series. */
  function SeriesTimes(g: Group, ss: seq<Series>): seq<int>
    decreases |ss|
  {
    if ss == [] then [] else SeriesTimes(g, ss[..|ss| - 1]) + Times(PointsOf(g, ss[|ss| - 1].id))
  }

  function AllTimes(g: Group): seq<int> {
    SeriesTimes(g, g.series)
  }

  /** `getGroupRangeFromData`. */
  function DataRange(g: Group): Option<Range> {
    RangeOf(AllTimes(g))
  }

  /** The times a group ranges over depend on its series list and point lists only. */
  lemma {:induction false} SeriesTimesFrame(g: Group, h: Group, ss: seq<Series>)
    requires g.data == h.data
    ensures SeriesTimes(g, ss) == SeriesTimes(h, ss)
    decreases |ss|
  {
    if ss != [] {
      SeriesTimesFrame(g, h, ss[..|ss| - 1]);
    }
  }

  /** `getGroupRange` (or `updateGroupRangeFromData` under `recalc`): the stored pair when both are set, else the data. */
  function RangeFor(g: Group, recalc: bool): Option<Range> {
    if !recalc && g.startTime.Some? && g.lastTime.Some? then Some(Range(g.startTime.value, g.lastTime.value))
    else DataRange(g)
  }

  function Ranges(gs: seq<Group>, recalc: bool): (rs: seq<Option<Range>>)
    ensures |rs| == |gs|
    ensures forall i :: 0 <= i < |gs| ==> rs[i] == RangeFor(gs[i], recalc)
  {
    seq(|gs|, i requires 0 <= i < |gs| => RangeFor(gs[i], recalc))
  }

  /** `globalMax` of the first pass: the greatest `maxTime` over the present ranges, `-Infinity` as `None`. */
  function GlobalMax(rs: seq<Option<Range>>): Option<int>
    decreases |rs|
  {
    if rs == [] then None
    else
      var m := GlobalMax(rs[..|rs| - 1]);
      var r := rs[|rs| - 1];
      if r.None? then m
      else if m.None? || r.value.maxTime > m.value then Some(r.value.maxTime)
      else m
  }

  /** `maxDuration` of the first pass, starting at 0. */
  function MaxDuration(rs: seq<Option<Range>>): nat
    decreases |rs|
  {
    if rs == [] then 0
    else
      var d := MaxDuration(rs[..|rs| - 1]);
      var r := rs[|rs| - 1];
      if r.Some? && Duration(r.value) > d then Duration(r.value) else d
  }

  /** `globalMax` is absent exactly when no group has a range, and otherwise the greatest end, attained by some group. */
  lemma {:induction false} GlobalMaxSpec(rs: seq<Option<Range>>)
    ensures GlobalMax(rs).None? <==> forall i :: 0 <= i < |rs| ==> rs[i].None?
    ensures GlobalMax(rs).Some? ==>
              && (forall i :: 0 <= i < |rs| && rs[i].Some? ==> rs[i].value.maxTime <= GlobalMax(rs).value)
              && exists i :: 0 <= i < |rs| && rs[i].Some? && rs[i].value.maxTime == GlobalMax(rs).value
    decreases |rs|
  {
    if rs != [] {
      var init := rs[..|rs| - 1];
      GlobalMaxSpec(init);
      assert forall i :: 0 <= i < |init| ==> init[i] == rs[i];
      if GlobalMax(rs) != GlobalMax(init) {
        assert rs[|rs| - 1].value.maxTime == GlobalMax(rs).value;
      }
    }
  }

  /** `maxDuration` bounds every present range's duration and is 0 or attained by one of them. */
  lemma {:induction false} MaxDurationSpec(rs: seq<Option<Range>>)
    ensures forall i :: 0 <= i < |rs| && rs[i].Some? ==> Duration(rs[i].value) <= MaxDuration(rs)
    ensures MaxDuration(rs) == 0 || exists i :: 0 <= i < |rs| && rs[i].Some? && Duration(rs[i].value) == MaxDuration(rs)
    decreases |rs|
  {
    if rs != [] {
      var init := rs[..|rs| - 1];
      MaxDurationSpec(init);
      assert forall i :: 0 <= i < |init| ==> init[i] == rs[i];
      if MaxDuration(rs) != MaxDuration(init) {
        assert Duration(rs[|rs| - 1].value) == MaxDuration(rs);
      }
    }
  }

  /** The first pass writes the range back into `startTime`/`lastTime` (a no-op when the stored pair was used). */
  function Refresh(g: Group, r: Option<Range>): Group {
    match r
    case None => g.(startTime := None, lastTime := None)
    case Some(x) => g.(startTime := Some(x.minTime), lastTime := Some(x.maxTime))
  }

  /** The second pass for one group: no range clears its times, a range gets the shared display start. */
  function Place(g: Group, r: Option<Range>, displayStart: int): Group {
    match r
    case None => g.(startTime := None, lastTime := None, displayStartTime := None)
    case Some(_) => g.(displayStartTime := Some(displayStart), graphStartTime := Some(displayStart))
  }

  /** `alignGroupsToGlobalTimeline({ recalc })` on the groups; rendering and scrolling are left out. */
  function Align(gs: seq<Group>, recalc: bool): (r: seq<Group>)
    ensures |r| == |gs|
  {
    var rs := Ranges(gs, recalc);
    match GlobalMax(rs)
    case None => seq(|gs|, i requires 0 <= i < |gs| => Refresh(gs[i], rs[i]).(displayStartTime := None))
    case Some(m) => seq(|gs|, i requires 0 <= i < |gs| => Place(Refresh(gs[i], rs[i]), rs[i], m - MaxDuration(rs)))
  }

  /** Alignment only touches the four time fields of a group. */
  lemma {:induction false} AlignKeepsContent(gs: seq<Group>, recalc: bool)
    ensures forall i :: 0 <= i < |gs| ==>
              && Align(gs, recalc)[i].id == gs[i].id && Align(gs, recalc)[i].name == gs[i].name
              && Align(gs, recalc)[i].series == gs[i].series && Align(gs, recalc)[i].data == gs[i].data
  {
  }

  /**
   * After `alignGroupsToGlobalTimeline({ recalc: true })` a group's start and last time are the
   * least and greatest time among its points, or both absent when it has none.
   */
  lemma {:induction false} AlignRecalcTimes(gs: seq<Group>, i: nat)
    requires i < |gs|
    ensures var g, ts := Align(gs, true)[i], AllTimes(gs[i]);
            && (ts == [] ==> g.startTime.None? && g.lastTime.None? && g.displayStartTime.None?)
            && (ts != [] ==>
                  && g.startTime.Some? && g.lastTime.Some?
                  && g.startTime.value in ts && g.lastTime.value in ts
                  && forall k :: 0 <= k < |ts| ==> g.startTime.value <= ts[k] <= g.lastTime.value)
  {
    RangeOfSpec(AllTimes(gs[i]));
  }

  /**
   * After `alignGroupsToGlobalTimeline({ recalc: true })` every group with points shows the
   * same display start: the latest last time over all groups minus the longest duration.
   */
  lemma {:induction false} AlignRecalcDisplay(gs: seq<Group>, i: nat)
    requires i < |gs| && AllTimes(gs[i]) != []
    ensures var rs := Ranges(gs, true);
            && GlobalMax(rs).Some?
            && Align(gs, true)[i].displayStartTime == Some(GlobalMax(rs).value - MaxDuration(rs))
            && Align(gs, true)[i].graphStartTime == Align(gs, true)[i].displayStartTime
  {
    var rs := Ranges(gs, true);
    RangeOfSpec(AllTimes(gs[i]));
    GlobalMaxSpec(rs);
    assert rs[i].Some?;
  }

  /**
   * What the shared window does guarantee: the group whose last time is the global maximum
   * lies inside `[displayStart, globalMax]`, and every group ends by `globalMax`.
   */
  lemma {:induction false} LatestGroupInWindow(gs: seq<Group>)
    requires exists i :: 0 <= i < |gs| && AllTimes(gs[i]) != []
    ensures var rs := Ranges(gs, true);
            GlobalMax(rs).Some? &&
            var display := GlobalMax(rs).value - MaxDuration(rs);
            && (forall j :: 0 <= j < |gs| && rs[j].Some? ==> rs[j].value.maxTime <= GlobalMax(rs).value)
            && exists j :: 0 <= j < |gs| && rs[j].Some? && display <= rs[j].value.minTime
                                          && rs[j].value.maxTime == GlobalMax(rs).value
  {
    var rs := Ranges(gs, true);
    var i :| 0 <= i < |gs| && AllTimes(gs[i]) != [];
    RangeOfSpec(AllTimes(gs[i]));
    GlobalMaxSpec(rs);
    MaxDurationSpec(rs);
    var j :| 0 <= j < |rs| && rs[j].Some? && rs[j].value.maxTime == GlobalMax(rs).value;
    RangeOfSpec(AllTimes(gs[j]));
    assert Duration(rs[j].value) <= MaxDuration(rs);
  }

  function SampleGroup(id: nat, ts: seq<int>): Group {
    Group(id, "g", [Series(id, id, "s", "#667eea", "s")], map[id := seq(|ts|, k requires 0 <= k < |ts| => Point(ts[k], 0.0))],
          None, None, None, None)
  }

  /**
   * The shared display start does not keep every group's points in view: a group spanning
   * 0..10 next to a group spanning 100..105 gets the display start 95, long after its own start.
   */
  lemma {:induction false} OldGroupStartsBeforeWindow()
    ensures var gs := [SampleGroup(1, [0, 10]), SampleGroup(2, [100, 105])];
            Align(gs, true)[0].displayStartTime == Some(95) && Align(gs, true)[0].startTime == Some(0)
  {
    var gs := [SampleGroup(1, [0, 10]), SampleGroup(2, [100, 105])];
    SampleTimes(1, [0, 10]);
    SampleTimes(2, [100, 105]);
    RangeOfPair(0, 10);
    RangeOfPair(100, 105);
    var rs := Ranges(gs, true);
    assert rs[0] == DataRange(gs[0]) == Some(Range(0, 10));
    assert rs[1] == DataRange(gs[1]) == Some(Range(100, 105));
    assert rs == [Some(Range(0, 10)), Some(Range(100, 105))];
    TwoRanges(rs, Range(0, 10), Range(100, 105));
    assert Align(gs, true)[0] == Place(Refresh(gs[0], rs[0]), rs[0], 95);
  }

  lemma {:induction false} SampleTimes(id: nat, ts: seq<int>)
    ensures AllTimes(SampleGroup(id, ts)) == ts
  {
    var g := SampleGroup(id, ts);
    var ss := g.series;
    assert ss[..|ss| - 1] == [];
    assert SeriesTimes(g, []) == [];
    var pts := PointsOf(g, id);
    assert |pts| == |ts|;
    assert forall k :: 0 <= k < |ts| ==> Times(pts)[k] == ts[k];
    assert Times(pts) == ts;
    assert SeriesTimes(g, ss) == SeriesTimes(g, []) + Times(pts);
  }

  lemma {:induction false} RangeOfPair(a: int, b: int)
    requires a <= b
    ensures RangeOf([a, b]) == Some(Range(a, b))
  {
    var ts := [a, b];
    assert ts[..|ts| - 1] == [a];
    assert [a][..0] == [];
    assert RangeOf([]) == None;
    assert RangeOf([a]) == Some(Range(a, a));
  }

  lemma {:induction false} TwoRanges(rs: seq<Option<Range>>, x: Range, y: Range)
    requires rs == [Some(x), Some(y)] && x.maxTime <= y.maxTime && Duration(y) <= Duration(x)
    ensures GlobalMax(rs) == Some(y.maxTime) && MaxDuration(rs) == Duration(x)
  {
    assert rs[..|rs| - 1] == [Some(x)];
    var one: seq<Option<Range>> := [Some(x)];
    assert one[..|one| - 1] == [];
    assert GlobalMax(one) == Some(x.maxTime);
    assert MaxDuration(one) == Duration(x);
  }

  /** Aligning twice with `recalc` gives what aligning once does. */
  lemma {:induction false} AlignRecalcIdempotent(gs: seq<Group>)
    ensures Align(Align(gs, true), true) == Align(gs, true)
  {
    var a := Align(gs, true);
    forall i | 0 <= i < |gs|
      ensures AllTimes(a[i]) == AllTimes(gs[i])
    {
      SeriesTimesFrame(a[i], gs[i], gs[i].series);
    }
    assert Ranges(a, true) == Ranges(gs, true);
  }
}
