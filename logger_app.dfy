/**
 * The logger's mutable state (logger/app.js): the group list, the label registry, the
 * automatic-series map and the counters, updated in place by the operations of the page.
 * Each method changes the fields as the source does, loop by loop, and is tied to the value
 * model of the store: its new state is the store function applied to the old state.
 */
module LoggerApp {
  import opened Wrappers
  import opened Seqs
  import opened Text
  import opened LoggerLabels
  import opened LoggerStore
  import opened LoggerRange
  import opened LoggerPersist
  import opened LoggerParse
  import opened LoggerIngest
  import LoggerRegistry

  /** A store after `alignGroupsToGlobalTimeline({ recalc })`. */
  function Aligned(st: Store, recalc: bool): Store {
    st.(groups := Align(st.groups, recalc))
  }

  /** `removeSeries(group, seriesId)` as a whole: a refusal changes nothing, a removal is followed by alignment. */
  function RemoveSeriesOp(st: Store, gi: nat, seriesId: nat): Store
    requires gi < |st.groups|
  {
    if |st.groups[gi].series| <= 1 || SeriesIndex(st.groups[gi].series, seriesId) == -1 then st
    else Aligned(RemoveSeries(st, gi, seriesId), true)
  }

  /** `removeGroup(groupId)` as a whole. */
  function RemoveGroupOp(st: Store, groupId: nat): Store {
    if |st.groups| <= 1 || GroupIndex(st.groups, groupId) == -1 then st
    else Aligned(RemoveGroup(st, groupId), true)
  }

  /** `moveSeriesBetweenGroups` as a whole: only a transfer between groups realigns. */
  function MoveSeriesOp(st: Store, seriesId: nat, fromId: nat, toId: nat, insertIndex: int): (Store, MoveOutcome) {
    var (r, outcome) := MoveSeries(st, seriesId, fromId, toId, insertIndex);
    if outcome == Moved then (Aligned(r, true), outcome) else (r, outcome)
  }

  /** `removeSeries` with its alignment keeps the invariant. */
  lemma {:induction false} RemoveSeriesOpKeeps(st: Store, gi: nat, seriesId: nat)
    requires LoggerRegistry.Registered(st) && gi < |st.groups|
    ensures LoggerRegistry.Registered(RemoveSeriesOp(st, gi, seriesId))
  {
    LoggerRegistry.RemoveSeriesKeeps(st, gi, seriesId);
    if !(|st.groups[gi].series| <= 1 || SeriesIndex(st.groups[gi].series, seriesId) == -1) {
      LoggerRegistry.AlignKeeps(RemoveSeries(st, gi, seriesId), true);
    }
  }

  /** `removeGroup` with its alignment keeps the invariant. */
  lemma {:induction false} RemoveGroupOpKeeps(st: Store, groupId: nat)
    requires LoggerRegistry.Registered(st)
    ensures LoggerRegistry.Registered(RemoveGroupOp(st, groupId))
  {
    LoggerRegistry.RemoveGroupKeeps(st, groupId);
    if !(|st.groups| <= 1 || GroupIndex(st.groups, groupId) == -1) {
      LoggerRegistry.AlignKeeps(RemoveGroup(st, groupId), true);
    }
  }

  /** `moveSeriesBetweenGroups` with its alignment keeps the invariant. */
  lemma {:induction false} MoveSeriesOpKeeps(st: Store, seriesId: nat, fromId: nat, toId: nat, insertIndex: int)
    requires LoggerRegistry.Registered(st)
    ensures LoggerRegistry.Registered(MoveSeriesOp(st, seriesId, fromId, toId, insertIndex).0)
  {
    LoggerRegistry.MoveSeriesKeeps(st, seriesId, fromId, toId, insertIndex);
    var (r, outcome) := MoveSeries(st, seriesId, fromId, toId, insertIndex);
    if outcome == Moved {
      LoggerRegistry.AlignKeeps(r, true);
    }
  }

  /** Removing one more id from the cleared set clears one more entry. */
  lemma {:induction false} ClearIdsStep(m: seq<Option<nat>>, ids: set<nat>, x: nat)
    ensures ClearIds(ClearIds(m, ids), {x}) == ClearIds(m, ids + {x})
  {
  }

  lemma {:induction false} SeriesIdsStep(ss: seq<Series>, k: nat)
    requires k < |ss|
    ensures SeriesIds(ss[..k + 1]) == SeriesIds(ss[..k]) + {ss[k].id}
    ensures SeriesKeys(ss[..k + 1]) == SeriesKeys(ss[..k]) + (if ss[k].normalizedLabel != "" then {ss[k].normalizedLabel} else {})
  {
    var a, b := ss[..k + 1], ss[..k];
    assert forall j :: 0 <= j < k ==> a[j] == b[j];
    assert a[k] == ss[k];
    assert SeriesIds(a) == SeriesIds(b) + {ss[k].id} by {
      forall x | x in SeriesIds(a)
        ensures x in SeriesIds(b) + {ss[k].id}
      {
        var j :| 0 <= j < k + 1 && a[j].id == x;
        if j < k {
          assert b[j].id == x;
        }
      }
      forall x | x in SeriesIds(b)
        ensures x in SeriesIds(a)
      {
        var j :| 0 <= j < k && b[j].id == x;
        assert a[j].id == x;
      }
    }
    assert SeriesKeys(a) == SeriesKeys(b) + (if ss[k].normalizedLabel != "" then {ss[k].normalizedLabel} else {}) by {
      forall x | x in SeriesKeys(a)
        ensures x in SeriesKeys(b) + (if ss[k].normalizedLabel != "" then {ss[k].normalizedLabel} else {})
      {
        var j :| 0 <= j < k + 1 && a[j].normalizedLabel != "" && a[j].normalizedLabel == x;
        if j < k {
          assert b[j].normalizedLabel == x;
        }
      }
      forall x | x in SeriesKeys(b)
        ensures x in SeriesKeys(a)
      {
        var j :| 0 <= j < k && b[j].normalizedLabel != "" && b[j].normalizedLabel == x;
        assert a[j].normalizedLabel == x;
      }
    }
  }

  /** The series times of a prefix one series longer. */
  lemma {:induction false} SeriesTimesStep(g: Group, ss: seq<Series>, k: nat)
    requires k < |ss|
    ensures SeriesTimes(g, ss[..k + 1]) == SeriesTimes(g, ss[..k]) + Times(PointsOf(g, ss[k].id))
  {
    assert ss[..k + 1][..k] == ss[..k];
  }

  lemma {:induction false} PriorSeriesStart(prior: seq<int>, g: Group, ss: seq<Series>)
    ensures prior + SeriesTimes(g, ss[..0]) == prior
  {
    assert ss[..0] == [];
  }

  lemma {:induction false} PriorSeriesStep(prior: seq<int>, g: Group, ss: seq<Series>, k: nat)
    requires k < |ss|
    ensures prior + SeriesTimes(g, ss[..k + 1]) == (prior + SeriesTimes(g, ss[..k])) + Times(PointsOf(g, ss[k].id))
  {
    SeriesTimesStep(g, ss, k);
    AppendAssoc(prior, SeriesTimes(g, ss[..k]), Times(PointsOf(g, ss[k].id)));
  }

  lemma {:induction false} PriorPointsStart(prior: seq<int>, pts: seq<Point>)
    ensures prior + Times(pts[..0]) == prior
  {
    assert pts[..0] == [];
  }

  lemma {:induction false} PriorPointsStep(prior: seq<int>, pts: seq<Point>, p: nat)
    requires p < |pts|
    ensures prior + Times(pts[..p + 1]) == (prior + Times(pts[..p])) + [pts[p].t]
  {
    TimesStep(pts, p);
    AppendAssoc(prior, Times(pts[..p]), [pts[p].t]);
  }

  lemma {:induction false} TimesStep(pts: seq<Point>, p: nat)
    requires p < |pts|
    ensures Times(pts[..p + 1]) == Times(pts[..p]) + [pts[p].t]
  {
  }

  lemma {:induction false} GlobalTimesStep(gs: seq<Group>, i: nat)
    requires i < |gs|
    ensures GlobalTimes(gs[..i + 1]) == GlobalTimes(gs[..i]) + AllTimes(gs[i])
  {
    assert gs[..i + 1][..i] == gs[..i];
  }

  lemma {:induction false} TrimSeriesStep(data: map<nat, seq<Point>>, ss: seq<Series>, c: Cut, k: nat)
    requires k < |ss|
    ensures var (d, n) := TrimSeries(data, ss[..k], c);
            var pts := if ss[k].id in d then d[ss[k].id] else [];
            TrimSeries(data, ss[..k + 1], c) == if pts == [] then (d, n) else (d[ss[k].id := ApplyCut(c, pts)], n + Loss(c, pts))
  {
    assert ss[..k + 1][..k] == ss[..k];
  }

  lemma {:induction false} TrimGroupsStep(gs: seq<Group>, c: Cut, i: nat)
    requires i < |gs|
    ensures TrimGroups(gs[..i + 1], c) ==
              (TrimGroups(gs[..i], c).0 + [gs[i].(data := TrimSeries(gs[i].data, gs[i].series, c).0)],
               TrimGroups(gs[..i], c).1 + TrimSeries(gs[i].data, gs[i].series, c).1)
  {
    assert gs[..i + 1][..i] == gs[..i];
  }

  /** `createSeries` once the unique label is known. */
  lemma {:induction false} CreateSeriesIs(st: Store, groupId: nat, wanted: string, unique: string)
    requires unique == NewSeriesLabel(st.labelMap, wanted)
    ensures var id := st.seriesCounter + 1;
            var key := NormalizeLabel(unique);
            LoggerStore.CreateSeries(st, groupId, wanted)
              == (st.(seriesCounter := id, labelMap := if key != "" then st.labelMap[key := LabelRef(groupId, id)] else st.labelMap),
                  Series(id, groupId, unique, Palette[(id - 1) % |Palette|], key))
  {
  }

  /** Routing a suffix is routing its first sample, then the rest. */
  lemma {:induction false} RouteAllCons(st: Store, samples: seq<Sample>, i: nat, ts: int, st1: Store, a: bool)
    requires i < |samples| && (st1, a) == RouteSample(st, samples[i], ts)
    ensures RouteAll(st, samples[i..], ts) == (RouteAll(st1, samples[i + 1..], ts).0, a || RouteAll(st1, samples[i + 1..], ts).1)
  {
    assert samples[i..][1..] == samples[i + 1..];
  }

  /** The first group listing an id is the one `FindSeries` names. */
  lemma {:induction false} FindSeriesFirst(gs: seq<Group>, id: nat, i: nat)
    requires i < |gs| && SeriesIndex(gs[i].series, id) >= 0
    requires forall j :: 0 <= j < i ==> SeriesIndex(gs[j].series, id) == -1
    ensures FindSeries(gs, id) == Some((i, SeriesIndex(gs[i].series, id) as nat))
  {
    var r := FindSeries(gs, id);
    assert r.Some?;
    assert r.value.0 == i;
  }

  /** What the second pass makes of one refreshed group. */
  function Placed(g: Group, r: Option<Range>, globalMax: Option<int>, maxDuration: nat): Group {
    if globalMax.None? then g.(displayStartTime := None) else Place(g, r, globalMax.value - maxDuration)
  }

  lemma {:induction false} AlignAt(gs: seq<Group>, recalc: bool, k: nat)
    requires k < |gs|
    ensures var rs := Ranges(gs, recalc);
            Align(gs, recalc)[k] == Placed(Refresh(gs[k], rs[k]), rs[k], GlobalMax(rs), MaxDuration(rs))
  {
  }

  /** The series store of one logger page. */
  class Logger {
    var groups: seq<Group>
    var labelMap: LabelMap
    var autoSeriesMap: seq<Option<nat>>
    var groupCounter: nat
    var seriesCounter: nat
    var lastActiveGroupId: Option<nat>

    /** The fields as one store value. */
    function State(): Store
      reads this
    {
      Store(groups, labelMap, autoSeriesMap, groupCounter, seriesCounter, lastActiveGroupId)
    }

    /** The registry consistency `handleIncomingLine` relies on (see `LoggerRegistry.Registered`). */
    predicate Valid()
      reads this
    {
      LoggerRegistry.Registered(State())
    }

    /** The state before anything is loaded or created. */
    constructor ()
      ensures State() == Store([], map[], [], 0, 0, None)
      ensures Valid()
    {
      LoggerRegistry.EmptyRegistered();
      groups, labelMap, autoSeriesMap := [], map[], [];
      groupCounter, seriesCounter, lastActiveGroupId := 0, 0, None;
    }

    /** `createSeries(groupId, label)`. */
    method CreateSeries(groupId: nat, wanted: string) returns (s: Series)
      modifies this
      ensures (State(), s) == LoggerStore.CreateSeries(old(State()), groupId, wanted)
    {
      var id := seriesCounter + 1;
      var safe := SanitizeText(wanted);
      var unique := MakeUniqueLabel(labelMap, if safe == "" then "sensor" else safe);
      CreateSeriesIs(State(), groupId, wanted, unique);
      seriesCounter := id;
      var key := NormalizeLabel(unique);
      s := Series(id, groupId, unique, Palette[(id - 1) % |Palette|], key);
      if key != "" {
        labelMap := labelMap[key := LabelRef(groupId, id)];
      }
    }

    /** `appendSeriesToGroup(group, label)` for the group at `gi`. */
    method AppendSeriesToGroup(gi: nat, wanted: string) returns (s: Series)
      requires gi < |groups|
      modifies this
      ensures (State(), s) == AppendSeries(old(State()), gi, wanted)
    {
      var g := groups[gi];
      s := CreateSeries(g.id, wanted);
      var list := g.series + [s];
      groups := groups[gi := g.(series := list, data := EnsureLists(g.data, list))];
    }

    /** `createGroup(name)`: the next group id, then the group opened with the default series label `sensor_<id>`. */
    method CreateGroup(name: string)
      requires Valid()
      modifies this
      ensures State() == LoggerStore.OpenGroup(old(State()).(groupCounter := old(groupCounter) + 1), name, LoggerStore.Numbered("sensor_", old(groupCounter) + 1))
      ensures Valid()
    {
      ghost var st := State();
      LoggerRegistry.CreateGroupKeeps(st, name);
      groupCounter := groupCounter + 1;
      OpenGroup(name, LoggerStore.Numbered("sensor_", groupCounter));
      assert State() == LoggerStore.OpenGroup(st.(groupCounter := st.groupCounter + 1), name, LoggerStore.Numbered("sensor_", st.groupCounter + 1));
    }

    /** The rest of `createGroup` once the id `groupCounter` is taken. */
    method OpenGroup(name: string, wanted: string)
      modifies this
      ensures State() == LoggerStore.OpenGroup(old(State()), name, wanted)
    {
      var id := groupCounter;
      var s := CreateSeries(id, wanted);
      groups, lastActiveGroupId := groups + [NewGroup(id, name, s)], Some(id);
    }

    /** The label editor of the series at `si` in the group at `gi`. */
    method RenameSeries(gi: nat, si: nat, input: string) returns (outcome: RenameOutcome)
      requires Valid() && gi < |groups| && si < |groups[gi].series|
      modifies this
      ensures (State(), outcome) == LoggerStore.RenameSeries(old(State()), gi, si, input)
      ensures Valid()
    {
      LoggerRegistry.RenameKeeps(State(), gi, si, input);
      var g := groups[gi];
      var s := g.series[si];
      var next := SanitizeText(input);
      if next == "" {
        return EmptyLabel;
      }
      if !IsLabelAvailable(labelMap, next, Some(s.id)) {
        return DuplicateLabel;
      }
      if s.normalizedLabel != "" {
        labelMap := labelMap - {s.normalizedLabel};
      }
      var key := NormalizeLabel(next);
      if key != "" {
        labelMap := labelMap[key := LabelRef(g.id, s.id)];
      }
      groups := groups[gi := g.(series := g.series[si := s.(labelText := next, normalizedLabel := key)])];
      return Renamed(next);
    }

    /** `autoSeriesMap.forEach((entry, index) => { if (entry === id) autoSeriesMap[index] = null; })`. */
    method ForgetAuto(id: nat)
      modifies this
      ensures State() == old(State()).(autoSeriesMap := ClearIds(old(autoSeriesMap), {id}))
    {
      autoSeriesMap := ClearAuto(autoSeriesMap, id);
    }

    /** The loop of `ForgetAuto` on the list itself: every entry naming `id` becomes empty. */
    static method ClearAuto(m: seq<Option<nat>>, id: nat) returns (r: seq<Option<nat>>)
      ensures r == ClearIds(m, {id})
    {
      r := m;
      var i := 0;
      while i < |r|
        invariant i <= |r| == |m|
        invariant forall j :: 0 <= j < i ==> r[j] == ClearIds(m, {id})[j]
        invariant forall j :: i <= j < |r| ==> r[j] == m[j]
      {
        if r[i] == Some(id) {
          r := r[i := None];
        }
        i := i + 1;
      }
    }

    /** The `group.series.forEach` of `removeGroup`: each series' label key and auto slots forgotten. */
    static method ForgetAllSeries(labels: LabelMap, auto: seq<Option<nat>>, ss: seq<Series>)
      returns (labels': LabelMap, auto': seq<Option<nat>>)
      ensures labels' == labels - SeriesKeys(ss)
      ensures auto' == ClearIds(auto, SeriesIds(ss))
    {
      labels', auto' := labels, auto;
      var k := 0;
      while k < |ss|
        invariant k <= |ss|
        invariant labels' == labels - SeriesKeys(ss[..k])
        invariant auto' == ClearIds(auto, SeriesIds(ss[..k]))
      {
        SeriesIdsStep(ss, k);
        if ss[k].normalizedLabel != "" {
          labels' := labels' - {ss[k].normalizedLabel};
        }
        ClearIdsStep(auto, SeriesIds(ss[..k]), ss[k].id);
        auto' := ClearAuto(auto', ss[k].id);
        k := k + 1;
      }
      assert ss[..k] == ss;
    }

    /** `removeSeries(group, seriesId)` on the group at `gi`. */
    method RemoveSeries(gi: nat, seriesId: nat)
      requires Valid() && gi < |groups|
      modifies this
      ensures State() == RemoveSeriesOp(old(State()), gi, seriesId)
      ensures Valid()
    {
      ghost var st0 := State();
      RemoveSeriesOpKeeps(st0, gi, seriesId);
      var g := groups[gi];
      if |g.series| <= 1 {
        return;
      }
      var idx := SeriesIndex(g.series, seriesId);
      if idx == -1 {
        return;
      }
      var removed := g.series[idx];
      var list := RemoveAt(g.series, idx);
      labelMap := Unregister(labelMap, removed.normalizedLabel);
      ForgetAuto(seriesId);
      groups := groups[gi := g.(series := list, data := EnsureLists(g.data - {seriesId}, list))];
      assert State() == LoggerStore.RemoveSeries(st0, gi, seriesId);
      LoggerRegistry.RemoveSeriesKeeps(st0, gi, seriesId);
      AlignGroups(true);
    }

    /** `removeGroup(groupId)`. */
    method RemoveGroup(groupId: nat)
      requires Valid()
      modifies this
      ensures State() == RemoveGroupOp(old(State()), groupId)
      ensures Valid()
    {
      ghost var st0 := State();
      RemoveGroupOpKeeps(st0, groupId);
      if |groups| <= 1 {
        return;
      }
      var idx := GroupIndex(groups, groupId);
      if idx == -1 {
        return;
      }
      var removed := groups[idx];
      groups := RemoveAt(groups, idx);
      if lastActiveGroupId == Some(removed.id) {
        lastActiveGroupId := Some(groups[|groups| - 1].id);
      }
      labelMap, autoSeriesMap := ForgetAllSeries(labelMap, autoSeriesMap, removed.series);
      assert State() == LoggerStore.RemoveGroup(st0, groupId);
      LoggerRegistry.RemoveGroupKeeps(st0, groupId);
      AlignGroups(true);
    }

    /** `alignGroupsToGlobalTimeline({ recalc })`: the two passes over the groups. */
    method AlignGroups(recalc: bool)
      requires Valid()
      modifies this
      ensures State() == Aligned(old(State()), recalc)
      ensures Valid()
    {
      LoggerRegistry.AlignKeeps(State(), recalc);
      ghost var gs := groups;
      var rs, globalMax, maxDuration := RangePass(recalc);
      PlacePass(gs, rs, globalMax, maxDuration);
      forall k | 0 <= k < |gs|
        ensures groups[k] == Align(gs, recalc)[k]
      {
        AlignAt(gs, recalc, k);
      }
    }

    /** The first pass: each group's range, written back, and the running maximum and longest duration. */
    method RangePass(recalc: bool) returns (rs: seq<Option<Range>>, globalMax: Option<int>, maxDuration: nat)
      modifies this
      ensures rs == Ranges(old(groups), recalc) && globalMax == GlobalMax(rs) && maxDuration == MaxDuration(rs)
      ensures |groups| == |old(groups)|
      ensures forall j :: 0 <= j < |groups| ==> groups[j] == Refresh(old(groups)[j], rs[j])
      ensures State() == old(State()).(groups := groups)
    {
      ghost var gs := groups;
      rs, globalMax, maxDuration := [], None, 0;
      var i := 0;
      while i < |groups|
        invariant i <= |groups| == |gs|
        invariant rs == Ranges(gs, recalc)[..i]
        invariant globalMax == GlobalMax(rs) && maxDuration == MaxDuration(rs)
        invariant forall j :: 0 <= j < i ==> groups[j] == Refresh(gs[j], rs[j])
        invariant forall j :: i <= j < |gs| ==> groups[j] == gs[j]
        invariant State() == old(State()).(groups := groups)
      {
        var r := GroupRange(groups[i], recalc);
        groups := groups[i := Refresh(groups[i], r)];
        assert (rs + [r])[..|rs|] == rs;
        rs := rs + [r];
        if r.Some? {
          if globalMax.None? || r.value.maxTime > globalMax.value {
            globalMax := Some(r.value.maxTime);
          }
          if Duration(r.value) > maxDuration {
            maxDuration := Duration(r.value);
          }
        }
        i := i + 1;
      }
    }

    /** The second pass: without any range every display start is cleared, otherwise each group is placed. */
    method PlacePass(ghost gs: seq<Group>, rs: seq<Option<Range>>, globalMax: Option<int>, maxDuration: nat)
      requires |groups| == |rs| == |gs|
      requires forall j :: 0 <= j < |groups| ==> groups[j] == Refresh(gs[j], rs[j])
      modifies this
      ensures |groups| == |gs|
      ensures forall j :: 0 <= j < |groups| ==> groups[j] == Placed(Refresh(gs[j], rs[j]), rs[j], globalMax, maxDuration)
      ensures State() == old(State()).(groups := groups)
    {
      var j := 0;
      while j < |groups|
        invariant j <= |groups| == |gs|
        invariant forall k :: 0 <= k < j ==> groups[k] == Placed(Refresh(gs[k], rs[k]), rs[k], globalMax, maxDuration)
        invariant forall k :: j <= k < |gs| ==> groups[k] == Refresh(gs[k], rs[k])
        invariant State() == old(State()).(groups := groups)
      {
        if globalMax.None? {
          groups := groups[j := groups[j].(displayStartTime := None)];
        } else {
          groups := groups[j := Place(groups[j], rs[j], globalMax.value - maxDuration)];
        }
        j := j + 1;
      }
    }

    /** `moveSeriesBetweenGroups(seriesId, fromGroupId, toGroupId, insertIndex)`. */
    method MoveSeriesBetweenGroups(seriesId: nat, fromId: nat, toId: nat, insertIndex: int) returns (outcome: MoveOutcome)
      requires Valid()
      modifies this
      ensures (State(), outcome) == MoveSeriesOp(old(State()), seriesId, fromId, toId, insertIndex)
      ensures Valid()
    {
      ghost var st0 := State();
      MoveSeriesOpKeeps(st0, seriesId, fromId, toId, insertIndex);
      var si := GroupIndex(groups, fromId);
      var ti := GroupIndex(groups, toId);
      if si < 0 || ti < 0 {
        return MoveIgnored;
      }
      var source := groups[si];
      var idx := SeriesIndex(source.series, seriesId);
      if idx < 0 {
        return MoveIgnored;
      }
      if fromId != toId && |source.series| <= 1 {
        return MoveRefusedLastSeries;
      }
      if fromId == toId {
        var k := ReorderTarget(idx, insertIndex, |source.series|);
        if idx == k {
          return MoveIgnored;
        }
        var list := Reorder(source.series, idx, k);
        groups := groups[si := source.(series := list, data := EnsureLists(source.data, list))];
        return Reordered;
      }
      var s := source.series[idx];
      if s.normalizedLabel != "" && s.normalizedLabel in labelMap && labelMap[s.normalizedLabel].seriesId != s.id {
        return MoveRefusedDuplicate;
      }
      ghost var before := State();
      var target := groups[ti];
      if s.normalizedLabel != "" {
        labelMap := labelMap[s.normalizedLabel := LabelRef(target.id, s.id)];
      }
      var sourceList := RemoveAt(source.series, idx);
      var targetList := InsertAt(target.series, Clamp(insertIndex, |target.series|), s.(groupId := target.id));
      var points := if s.id in source.data then source.data[s.id] else [];
      groups := groups[si := source.(series := sourceList, data := EnsureLists(source.data - {s.id}, sourceList))];
      groups := groups[ti := target.(series := targetList, data := EnsureLists(target.data[s.id := points], targetList))];
      assert State() == Transfer(before, si, ti, idx, insertIndex);
      assert State() == MoveSeries(st0, seriesId, fromId, toId, insertIndex).0;
      LoggerRegistry.MoveSeriesKeeps(st0, seriesId, fromId, toId, insertIndex);
      AlignGroups(true);
      return Moved;
    }

    /** `findSeriesById(id)`: the groups in order, the first that lists the id. */
    method FindSeriesById(id: nat) returns (r: Option<(nat, nat)>)
      ensures r == FindSeries(groups, id)
    {
      var i := 0;
      while i < |groups|
        invariant i <= |groups|
        invariant forall j :: 0 <= j < i ==> SeriesIndex(groups[j].series, id) == -1
      {
        var k := SeriesIndex(groups[i].series, id);
        if k >= 0 {
          FindSeriesFirst(groups, id, i);
          return Some((i, k as nat));
        }
        i := i + 1;
      }
      return None;
    }

    /** One sample of `handleIncomingLine`. */
    method Route(s: Sample, ts: int) returns (appended: bool)
      modifies this
      ensures (State(), appended) == RouteSample(old(State()), s, ts)
    {
      var key := SampleKey(s);
      if key != "" && key in labelMap {
        var m := labelMap[key];
        var gi := GroupIndex(groups, m.groupId);
        if gi < 0 || SeriesIndex(groups[gi].series, m.seriesId) < 0 {
          return false;
        }
        groups := groups[gi := AppendPoint(groups[gi], m.seriesId, s.value, ts)];
        return true;
      } else if key != "" {
        var active := ActiveGroup(State());
        if active.None? {
          return false;
        }
        var gi := active.value;
        lastActiveGroupId := Some(groups[gi].id);
        var series := AppendSeriesToGroup(gi, s.name.value);
        groups := groups[gi := AppendPoint(groups[gi], series.id, s.value, ts)];
        return true;
      } else if groups != [] {
        var index := s.unlabeledIndex.GetOr(0);
        var found: Option<(nat, nat)> := None;
        if index < |autoSeriesMap| && autoSeriesMap[index].Some? {
          found := FindSeriesById(autoSeriesMap[index].value);
        }
        if found.Some? {
          var gi := found.value.0;
          groups := groups[gi := AppendPoint(groups[gi], autoSeriesMap[index].value, s.value, ts)];
          return true;
        }
        var series := AppendSeriesToGroup(0, AutoName(index));
        autoSeriesMap := SetAt(autoSeriesMap, index, Some(series.id));
        groups := groups[0 := AppendPoint(groups[0], series.id, s.value, ts)];
        return true;
      }
      return false;
    }

    /** `handleIncomingLine(text)` with `Date.now()` = `ts`. */
    method HandleIncomingLine(text: string, parse: JsonParser, ts: int)
      requires Valid()
      modifies this
      ensures State() == HandleLine(old(State()), text, parse, ts)
      ensures Valid()
    {
      ghost var st0 := State();
      LoggerRegistry.HandleLineKeeps(st0, text, parse, ts);
      var samples := ParseIncoming(text, parse);
      if samples == [] {
        return;
      }
      ghost var st := State();
      var appended := false;
      var i := 0;
      while i < |samples|
        invariant i <= |samples|
        invariant RouteAll(st, samples, ts) == (RouteAll(State(), samples[i..], ts).0, appended || RouteAll(State(), samples[i..], ts).1)
      {
        ghost var before := State();
        var a := Route(samples[i], ts);
        RouteAllCons(before, samples, i, ts, State(), a);
        appended := appended || a;
        i := i + 1;
      }
      assert samples[i..] == [];
      LoggerRegistry.RouteAllKeeps(st, samples, ts);
      assert State() == RouteAll(st, samples, ts).0;
      if appended {
        AlignGroups(false);
      }
    }

    /** `recalc ? updateGroupRangeFromData(group) : getGroupRange(group)`, without the write-back. */
    static method GroupRange(g: Group, recalc: bool) returns (r: Option<Range>)
      ensures r == RangeFor(g, recalc)
    {
      if !recalc && g.startTime.Some? && g.lastTime.Some? {
        return Some(Range(g.startTime.value, g.lastTime.value));
      }
      r := GroupRangeFromData(g);
    }

    /** `getGroupRangeFromData(group)`: least and greatest time over the listed series' points. */
    static method GroupRangeFromData(g: Group) returns (r: Option<Range>)
      ensures r == DataRange(g)
    {
      r := ExtendBySeries(None, g, []);
      assert [] + AllTimes(g) == AllTimes(g);
    }

    /** `getGlobalDataRange()` without its point count: the range over every group's points. */
    static method GlobalDataRange(gs: seq<Group>) returns (r: Option<Range>)
      ensures r == GlobalRange(gs)
    {
      r := None;
      var i := 0;
      while i < |gs|
        invariant i <= |gs|
        invariant r == RangeOf(GlobalTimes(gs[..i]))
      {
        r := ExtendBySeries(r, gs[i], GlobalTimes(gs[..i]));
        GlobalTimesStep(gs, i);
        i := i + 1;
      }
      assert gs[..i] == gs;
    }

    /** The `group.series.forEach` loop of the range scans: every listed series' points extend the range. */
    static method ExtendBySeries(r0: Option<Range>, g: Group, ghost prior: seq<int>) returns (r: Option<Range>)
      requires r0 == RangeOf(prior)
      ensures r == RangeOf(prior + AllTimes(g))
    {
      r := r0;
      var k := 0;
      PriorSeriesStart(prior, g, g.series);
      while k < |g.series|
        invariant k <= |g.series|
        invariant r == RangeOf(prior + SeriesTimes(g, g.series[..k]))
      {
        ghost var before := prior + SeriesTimes(g, g.series[..k]);
        var pts := PointsOf(g, g.series[k].id);
        r := ExtendByPoints(r, pts, before);
        PriorSeriesStep(prior, g, g.series, k);
        k := k + 1;
      }
      assert g.series[..k] == g.series;
    }

    /** The `points.forEach` loop: `Math.min`/`Math.max` over the times. */
    static method ExtendByPoints(r0: Option<Range>, pts: seq<Point>, ghost prior: seq<int>) returns (r: Option<Range>)
      requires r0 == RangeOf(prior)
      ensures r == RangeOf(prior + Times(pts))
    {
      r := r0;
      var p := 0;
      PriorPointsStart(prior, pts);
      while p < |pts|
        invariant p <= |pts|
        invariant r == RangeOf(prior + Times(pts[..p]))
      {
        ghost var before := prior + Times(pts[..p]);
        PriorPointsStep(prior, pts, p);
        RangeOfSnoc(before, pts[p].t);
        r := Some(Extend(r, pts[p].t));
        p := p + 1;
      }
      assert pts[..p] == pts;
    }

    /** The inner `group.series.forEach` of `trimOldestData`: every listed series with points is cut. */
    static method TrimGroupData(g: Group, c: Cut) returns (data: map<nat, seq<Point>>, removed: nat)
      ensures (data, removed) == TrimSeries(g.data, g.series, c)
    {
      data, removed := g.data, 0;
      var k := 0;
      while k < |g.series|
        invariant k <= |g.series|
        invariant data == TrimSeries(g.data, g.series[..k], c).0
        invariant removed == TrimSeries(g.data, g.series[..k], c).1
      {
        TrimSeriesStep(g.data, g.series, c, k);
        var id := g.series[k].id;
        var pts := if id in data then data[id] else [];
        if pts != [] {
          var kept := ApplyCut(c, pts);
          removed := removed + Loss(c, pts);
          data := data[id := kept];
        }
        k := k + 1;
      }
      assert g.series[..k] == g.series;
    }

    /** The outer `groups.forEach` of `trimOldestData`: every group's series cut at `c`. */
    static method TrimAllGroups(gs: seq<Group>, c: Cut) returns (trimmed: seq<Group>, count: nat)
      ensures (trimmed, count) == TrimGroups(gs, c)
    {
      trimmed, count := [], 0;
      for i := 0 to |gs|
        invariant (trimmed, count) == TrimGroups(gs[..i], c)
      {
        TrimGroupsStep(gs, c, i);
        var data, n := TrimGroupData(gs[i], c);
        trimmed := trimmed + [gs[i].(data := data)];
        count := count + n;
      }
      assert gs[..|gs|] == gs;
    }

    /** `trimOldestData(ratio)` with `ratio` = `tenths / 10`. */
    method TrimOldestData(tenths: nat) returns (removed: bool)
      requires Valid()
      modifies this
      ensures (groups, removed) == TrimOldest(old(groups), tenths)
      ensures State() == old(State()).(groups := groups)
      ensures Valid()
    {
      LoggerRegistry.TrimOldestKeeps(State(), tenths);
      var range := GlobalDataRange(groups);
      if range.None? {
        return false;
      }
      var c := CutFor(range.value, tenths);
      var trimmed, count := TrimAllGroups(groups, c);
      groups := trimmed;
      LoggerRegistry.TrimGroupsListing(old(groups), c);
      LoggerRegistry.ListingKeeps(old(State()), State());
      AlignGroups(true);
      return count > 0;
    }

    /** `saveState()` against a storage that accepts, refuses for quota, or fails on a serialised state. */
    method SaveState(storage: seq<Group> -> Attempt) returns (outcome: SaveOutcome)
      requires Valid()
      modifies this
      ensures (groups, outcome) == Save(old(groups), storage)
      ensures State() == old(State()).(groups := groups)
      ensures Valid()
    {
      LoggerRegistry.SaveKeeps(State(), storage);
      var first := storage(groups);
      if first == Stored {
        return Saved(0);
      }
      if first == OtherError {
        return Failed(0);
      }
      var attempt := 0;
      while attempt < 3
        invariant attempt <= 3
        invariant Retry(groups, attempt, storage, TrimOldest) == Save(old(groups), storage)
        invariant State() == old(State()).(groups := groups)
        invariant Valid()
        decreases 3 - attempt
      {
        var removed := TrimOldestData(attempt + 1);
        if !removed {
          return OutOfSpace(attempt);
        }
        var result := storage(groups);
        if result == Stored {
          return Saved(attempt + 1);
        }
        if result == OtherError {
          return Failed(attempt + 1);
        }
        attempt := attempt + 1;
      }
      return OutOfSpace(3);
    }
  }
}
