/**
 * The data logger's series store (logger/app.js module state): the groups, each owning an
 * ordered series list and the point lists of its graph, the label registry `labelMap`,
 * the positional `autoSeriesMap`, the id counters and the active group. The operations
 * here are the store updates of `createSeries`, `appendSeriesToGroup`, `createGroup`, the
 * label editor, `removeSeries`, `removeGroup`, `moveSeriesBetweenGroups` and `appendPoint`,
 * as functions from the old store to the new one; the alignment they trigger afterwards is
 * in LoggerRange and the class that drives them is LoggerApp.
 */
module LoggerStore {
  import opened Wrappers
  import opened Text
  import opened LoggerLabels

  /** A sample point: time in integer milliseconds, value. */
  datatype Point = Point(t: int, v: real)

  /** `{ id, groupId, label, color, normalizedLabel }`; the ids `series-n` are kept as `n`. */
  datatype Series = Series(id: nat, groupId: nat, labelText: string, color: string, normalizedLabel: string)

  /**
   * A group with its graph's state folded in: `data` is `group.graph.data` and
   * `graphStartTime` is `group.graph.startTime`. The ids `group-n` are kept as `n`.
   */
  datatype Group = Group(
    id: nat, name: string, series: seq<Series>, data: map<nat, seq<Point>>,
    startTime: Option<int>, lastTime: Option<int>, displayStartTime: Option<int>, graphStartTime: Option<int>)

  datatype Store = Store(
    groups: seq<Group>, labelMap: LabelMap, autoSeriesMap: seq<Option<nat>>,
    groupCounter: nat, seriesCounter: nat, lastActiveGroupId: Option<nat>)

  const Palette: seq<string> := ["#667eea", "#38a169", "#f6ad55", "#ed64a6", "#4299e1", "#805ad5"]

  /** `(n || '').toString()` for the counter-based default labels. */
  function Numbered(prefix: string, n: nat): string {
    prefix + NatToString(n)
  }

  // ---------------------------------------------------------------- lookups

  /** `series.findIndex((s) => s.id === id)`. */
  function SeriesIndex(ss: seq<Series>, id: nat): (r: int)
    ensures -1 <= r < |ss|
    ensures r >= 0 ==> ss[r].id == id && forall j :: 0 <= j < r ==> ss[j].id != id
    ensures r == -1 ==> forall j :: 0 <= j < |ss| ==> ss[j].id != id
    decreases |ss|
  {
    if ss == [] then -1
    else if ss[0].id == id then 0
    else
      var r := SeriesIndex(ss[1..], id);
      if r == -1 then -1 else r + 1
  }

  /** `groups.findIndex((g) => g.id === id)`, also the index behind `getGroupById`. */
  function GroupIndex(gs: seq<Group>, id: nat): (r: int)
    ensures -1 <= r < |gs|
    ensures r >= 0 ==> gs[r].id == id && forall j :: 0 <= j < r ==> gs[j].id != id
    ensures r == -1 ==> forall j :: 0 <= j < |gs| ==> gs[j].id != id
    decreases |gs|
  {
    if gs == [] then -1
    else if gs[0].id == id then 0
    else
      var r := GroupIndex(gs[1..], id);
      if r == -1 then -1 else r + 1
  }

  /** `getActiveGroup`: the last active group if it still exists, else the last group. */
  function ActiveGroup(st: Store): (r: Option<nat>)
    ensures r.Some? ==> r.value < |st.groups|
    ensures r.None? <==> st.groups == []
    ensures st.lastActiveGroupId.Some? && GroupIndex(st.groups, st.lastActiveGroupId.value) >= 0 ==>
              r == Some(GroupIndex(st.groups, st.lastActiveGroupId.value) as nat)
  {
    if st.lastActiveGroupId.Some? && GroupIndex(st.groups, st.lastActiveGroupId.value) >= 0 then
      Some(GroupIndex(st.groups, st.lastActiveGroupId.value) as nat)
    else if st.groups != [] then Some(|st.groups| - 1)
    else None
  }

  // ---------------------------------------------------------------- graph data

  /** `graph.setSeries(list)`: an empty point list for every listed series that has none. */
  function EnsureLists(data: map<nat, seq<Point>>, ss: seq<Series>): (r: map<nat, seq<Point>>)
    decreases |ss|
  {
    if ss == [] then data
    else
      var d := EnsureLists(data, ss[..|ss| - 1]);
      var id := ss[|ss| - 1].id;
      if id in d then d else d[id := []]
  }

  /** `setSeries` keeps every existing list and adds exactly the missing listed ones, empty. */
  lemma {:induction false} EnsureListsSpec(data: map<nat, seq<Point>>, ss: seq<Series>)
    ensures EnsureLists(data, ss).Keys == data.Keys + set i | 0 <= i < |ss| :: ss[i].id
    ensures forall id :: id in data ==> EnsureLists(data, ss)[id] == data[id]
    ensures forall id :: id in EnsureLists(data, ss) && id !in data ==> EnsureLists(data, ss)[id] == []
    decreases |ss|
  {
    if ss != [] {
      var init := ss[..|ss| - 1];
      EnsureListsSpec(data, init);
      assert forall i :: 0 <= i < |init| ==> init[i] == ss[i];
      assert (set i | 0 <= i < |ss| :: ss[i].id) == (set i | 0 <= i < |init| :: init[i].id) + {ss[|ss| - 1].id};
    }
  }

  /** `appendPoint` on the group: time bookkeeping, then `graph.addPoint`. */
  function AppendPoint(g: Group, seriesId: nat, value: real, ts: int): (r: Group)
    ensures r.lastTime == Some(ts)
    ensures r.startTime == if g.startTime.Some? then g.startTime else Some(ts)
    ensures seriesId in r.data
    ensures r.data[seriesId] == (if seriesId in g.data then g.data[seriesId] else []) + [Point(ts, value)]
    ensures forall id :: id != seriesId ==> (id in r.data <==> id in g.data)
    ensures forall id :: id != seriesId && id in g.data ==> r.data[id] == g.data[id]
    ensures r.series == g.series && r.id == g.id && r.name == g.name
  {
    var start := if g.startTime.Some? then g.startTime else Some(ts);
    var display := if g.displayStartTime.Some? then g.displayStartTime else start;
    var graphStart := if g.displayStartTime.Some? then g.graphStartTime else display;
    var prior := if seriesId in g.data then g.data[seriesId] else [];
    g.(startTime := start, lastTime := Some(ts), displayStartTime := display, graphStartTime := graphStart,
       data := g.data[seriesId := prior + [Point(ts, value)]])
  }

  // ---------------------------------------------------------------- creating series and groups

  /** The label `createSeries` gives a series asked for `label`: sanitised, `sensor` when empty, made unique. */
  function NewSeriesLabel(labelMap: LabelMap, wanted: string): string {
    var safe := SanitizeText(wanted);
    UniqueLabel(labelMap, if safe == "" then "sensor" else safe)
  }

  /** `createSeries(groupId, wanted)`: the next id, a palette colour, a unique label registered in `labelMap`. */
  function CreateSeries(st: Store, groupId: nat, wanted: string): (r: (Store, Series)) {
    var id := st.seriesCounter + 1;
    var unique := NewSeriesLabel(st.labelMap, wanted);
    var key := NormalizeLabel(unique);
    var s := Series(id, groupId, unique, Palette[(id - 1) % |Palette|], key);
    (st.(seriesCounter := id, labelMap := if key != "" then st.labelMap[key := LabelRef(groupId, id)] else st.labelMap), s)
  }

  lemma {:induction false} SensorIsClean()
    ensures IsClean("sensor")
  {
  }

  /**
   * A created series has a fresh id, a non-empty label whose key was not registered before,
   * and that key now names the series; no other registration changes.
   */
  lemma {:induction false} CreateSeriesRegisters(st: Store, groupId: nat, wanted: string)
    ensures CreateSeries(st, groupId, wanted).1.id == st.seriesCounter + 1
    ensures CreateSeries(st, groupId, wanted).0.seriesCounter == st.seriesCounter + 1
    ensures CreateSeries(st, groupId, wanted).1.labelText != ""
    ensures CreateSeries(st, groupId, wanted).1.normalizedLabel != ""
    ensures CreateSeries(st, groupId, wanted).1.normalizedLabel !in st.labelMap
    ensures CreateSeries(st, groupId, wanted).0.labelMap
         == st.labelMap[CreateSeries(st, groupId, wanted).1.normalizedLabel := LabelRef(groupId, st.seriesCounter + 1)]
    ensures CreateSeries(st, groupId, wanted).0.groups == st.groups
  {
    var safe := SanitizeText(wanted);
    var base := if safe == "" then "sensor" else safe;
    SensorIsClean();
    NewKeyNonEmpty(st.labelMap, base);
  }

  /** A unique label made from a clean non-empty base has a non-empty key. */
  lemma {:induction false} NewKeyNonEmpty(labelMap: LabelMap, base: string)
    requires base != "" && IsClean(base)
    ensures UniqueLabel(labelMap, base) != ""
    ensures NormalizeLabel(UniqueLabel(labelMap, base)) != ""
  {
    var n := LeastFree(labelMap, base);
    if n <= 1 {
      NormalizeCleanEmpty(base);
    } else {
      NormalizeSuffixed(base, n - 1);
    }
  }

  /** `appendSeriesToGroup(group, wanted)`: a created series pushed onto the group, then `setSeries`. */
  function AppendSeries(st: Store, gi: nat, wanted: string): (r: (Store, Series))
    requires gi < |st.groups|
  {
    var g := st.groups[gi];
    var (st1, s) := CreateSeries(st, g.id, wanted);
    var list := g.series + [s];
    (st1.(groups := st.groups[gi := g.(series := list, data := EnsureLists(g.data, list))]), s)
  }

  /** The new series is the group's last, with an empty point list; the other groups are untouched. */
  lemma {:induction false} AppendSeriesSpec(st: Store, gi: nat, wanted: string)
    requires gi < |st.groups|
    ensures |AppendSeries(st, gi, wanted).0.groups| == |st.groups|
    ensures AppendSeries(st, gi, wanted).0.groups[gi].series == st.groups[gi].series + [AppendSeries(st, gi, wanted).1]
    ensures AppendSeries(st, gi, wanted).1.groupId == st.groups[gi].id
    ensures st.groups[gi].data.Keys <= AppendSeries(st, gi, wanted).0.groups[gi].data.Keys
    ensures st.seriesCounter + 1 !in st.groups[gi].data ==>
              AppendSeries(st, gi, wanted).0.groups[gi].data[st.seriesCounter + 1] == []
    ensures forall j :: 0 <= j < |st.groups| && j != gi ==> AppendSeries(st, gi, wanted).0.groups[j] == st.groups[j]
  {
    var g := st.groups[gi];
    var (st1, s) := CreateSeries(st, g.id, wanted);
    EnsureListsSpec(g.data, g.series + [s]);
    assert (g.series + [s])[|g.series|] == s;
  }

  /** The rest of `createGroup` once the id `groupCounter` is taken: its one series asks for `wanted`. */
  function OpenGroup(st: Store, name: string, wanted: string): (r: Store) {
    var id := st.groupCounter;
    var r := CreateSeries(st, id, wanted);
    r.0.(groups := st.groups + [NewGroup(id, name, r.1)], lastActiveGroupId := Some(id))
  }

  /** The group record `createGroup` pushes: a sanitised name or `그룹 n`, the one series, no times yet. */
  function NewGroup(id: nat, name: string, s: Series): Group {
    var safe := SanitizeText(name);
    var groupName := if safe == "" then Numbered("그룹 ", id) else safe;
    Group(id, groupName, [s], map[s.id := []], None, None, None, None)
  }

  /** The new group is the last one, active, with one series and an empty point list for it. */
  lemma {:induction false} OpenGroupSpec(st: Store, name: string, wanted: string)
    ensures |OpenGroup(st, name, wanted).groups| == |st.groups| + 1
    ensures OpenGroup(st, name, wanted).groups[..|st.groups|] == st.groups
    ensures OpenGroup(st, name, wanted).groups[|st.groups|].id == st.groupCounter
    ensures OpenGroup(st, name, wanted).groups[|st.groups|].series == [CreateSeries(st, st.groupCounter, wanted).1]
    ensures OpenGroup(st, name, wanted).groups[|st.groups|].name
         == if SanitizeText(name) == "" then Numbered("그룹 ", st.groupCounter) else SanitizeText(name)
    ensures OpenGroup(st, name, wanted).labelMap == CreateSeries(st, st.groupCounter, wanted).0.labelMap
    ensures OpenGroup(st, name, wanted).seriesCounter == st.seriesCounter + 1
    ensures OpenGroup(st, name, wanted).lastActiveGroupId == Some(st.groupCounter)
    ensures ActiveGroup(OpenGroup(st, name, wanted)) == Some(|st.groups|) || GroupIndex(st.groups, st.groupCounter) >= 0
  {
    var r := OpenGroup(st, name, wanted);
    assert r.groups[..|st.groups|] == st.groups;
    if GroupIndex(st.groups, st.groupCounter) < 0 {
      assert GroupIndex(r.groups, st.groupCounter) == |st.groups| by {
        GroupIndexAppend(st.groups, r.groups[|st.groups|]);
      }
    }
  }

  lemma {:induction false} GroupIndexAppend(gs: seq<Group>, g: Group)
    requires GroupIndex(gs, g.id) < 0
    ensures GroupIndex(gs + [g], g.id) == |gs|
    decreases |gs|
  {
    if gs != [] {
      assert (gs + [g])[1..] == gs[1..] + [g];
      GroupIndexAppend(gs[1..], g);
    }
  }

  // ---------------------------------------------------------------- renaming

  datatype RenameOutcome = EmptyLabel | DuplicateLabel | Renamed(newLabel: string)

  /**
   * The label editor of a series row (`buildSeriesRow`'s input handler): an input that
   * sanitises to nothing is refused, a label whose key another series owns is refused,
   * otherwise the label is stored and `updateLabelMap` moves the registration.
   */
  function RenameSeries(st: Store, gi: nat, si: nat, input: string): (r: (Store, RenameOutcome))
    requires gi < |st.groups| && si < |st.groups[gi].series|
  {
    var g := st.groups[gi];
    var s := g.series[si];
    var next := SanitizeText(input);
    if next == "" then (st, EmptyLabel)
    else if !IsLabelAvailable(st.labelMap, next, Some(s.id)) then (st, DuplicateLabel)
    else
      var cleared := if s.normalizedLabel != "" then st.labelMap - {s.normalizedLabel} else st.labelMap;
      var key := NormalizeLabel(next);
      var labels := if key != "" then cleared[key := LabelRef(g.id, s.id)] else cleared;
      var s' := s.(labelText := next, normalizedLabel := key);
      (st.(groups := st.groups[gi := g.(series := g.series[si := s'])], labelMap := labels), Renamed(next))
  }

  /** Renaming never takes a key registered to another series, and a successful rename registers the new key. */
  lemma {:induction false} RenameRefusesTaken(st: Store, gi: nat, si: nat, input: string)
    requires gi < |st.groups| && si < |st.groups[gi].series|
    ensures var key := NormalizeLabel(SanitizeText(input));
            key != "" && key in st.labelMap && st.labelMap[key].seriesId != st.groups[gi].series[si].id ==>
              RenameSeries(st, gi, si, input) == (st, DuplicateLabel)
    ensures RenameSeries(st, gi, si, input).1.Renamed? ==>
              var key := NormalizeLabel(SanitizeText(input));
              key != "" && key in RenameSeries(st, gi, si, input).0.labelMap
              && RenameSeries(st, gi, si, input).0.labelMap[key] == LabelRef(st.groups[gi].id, st.groups[gi].series[si].id)
    ensures SanitizeText(input) == "" <==> RenameSeries(st, gi, si, input).1 == EmptyLabel
  {
    var next := SanitizeText(input);
    if next != "" {
      NormalizeCleanEmpty(next);
    }
  }


  // ---------------------------------------------------------------- removing

  /** No two series of a list share an id; the id counter makes this hold for every list the logger builds. */
  predicate DistinctIds(ss: seq<Series>) {
    forall i, j :: 0 <= i < j < |ss| ==> ss[i].id != ss[j].id
  }

  function RemoveAt<T>(s: seq<T>, k: nat): (r: seq<T>)
    requires k < |s|
    ensures |r| == |s| - 1
    ensures forall j :: 0 <= j < |r| ==> r[j] == if j < k then s[j] else s[j + 1]
  {
    s[..k] + s[k + 1..]
  }

  function InsertAt<T>(s: seq<T>, k: nat, x: T): (r: seq<T>)
    requires k <= |s|
    ensures |r| == |s| + 1 && r[k] == x
    ensures forall j :: 0 <= j < |r| && j != k ==> r[j] == if j < k then s[j] else s[j - 1]
  {
    s[..k] + [x] + s[k..]
  }

  /** `autoSeriesMap.forEach(...)` for every id of `ids`: the entries naming one of them become `null`. */
  function ClearIds(m: seq<Option<nat>>, ids: set<nat>): seq<Option<nat>> {
    seq(|m|, i requires 0 <= i < |m| => if m[i].Some? && m[i].value in ids then None else m[i])
  }

  /** `labelMap.delete(key)` for a non-empty key. */
  function Unregister(labelMap: LabelMap, key: string): LabelMap {
    if key != "" then labelMap - {key} else labelMap
  }

  function SeriesIds(ss: seq<Series>): set<nat> {
    set k | 0 <= k < |ss| :: ss[k].id
  }

  function SeriesKeys(ss: seq<Series>): set<string> {
    set k | 0 <= k < |ss| && ss[k].normalizedLabel != "" :: ss[k].normalizedLabel
  }

  /**
   * `removeSeries(group, seriesId)` before its alignment: refused for the group's last series
   * and for an id not in the group; otherwise the series, its key and its point list go, and
   * `autoSeriesMap` forgets it.
   */
  function RemoveSeries(st: Store, gi: nat, seriesId: nat): (r: Store)
    requires gi < |st.groups|
  {
    var g := st.groups[gi];
    var idx := SeriesIndex(g.series, seriesId);
    if |g.series| <= 1 || idx == -1 then st
    else
      var list := RemoveAt(g.series, idx);
      st.(groups := st.groups[gi := g.(series := list, data := EnsureLists(g.data - {seriesId}, list))],
          labelMap := Unregister(st.labelMap, g.series[idx].normalizedLabel),
          autoSeriesMap := ClearIds(st.autoSeriesMap, {seriesId}))
  }

  /** A group keeps at least one series, and a removed series leaves no trace in the group, the registry or `autoSeriesMap`. */
  lemma {:induction false} RemoveSeriesSpec(st: Store, gi: nat, seriesId: nat)
    requires gi < |st.groups| && |st.groups[gi].series| >= 1
    ensures |RemoveSeries(st, gi, seriesId).groups| == |st.groups|
    ensures |RemoveSeries(st, gi, seriesId).groups[gi].series| >= 1
    ensures |st.groups[gi].series| <= 1 || SeriesIndex(st.groups[gi].series, seriesId) == -1 ==> RemoveSeries(st, gi, seriesId) == st
    ensures |st.groups[gi].series| > 1 && SeriesIndex(st.groups[gi].series, seriesId) >= 0 ==>
      var idx := SeriesIndex(st.groups[gi].series, seriesId);
      var r := RemoveSeries(st, gi, seriesId);
      && r.groups[gi].series == RemoveAt(st.groups[gi].series, idx)
      && (st.groups[gi].series[idx].normalizedLabel != "" ==> st.groups[gi].series[idx].normalizedLabel !in r.labelMap)
      && (forall i :: 0 <= i < |r.autoSeriesMap| ==> r.autoSeriesMap[i] != Some(seriesId))
      && (forall j :: 0 <= j < |st.groups| && j != gi ==> r.groups[j] == st.groups[j])
      && (DistinctIds(st.groups[gi].series) ==> SeriesIndex(r.groups[gi].series, seriesId) == -1 && seriesId !in r.groups[gi].data)
  {
    var g := st.groups[gi];
    var idx := SeriesIndex(g.series, seriesId);
    if |g.series| > 1 && idx >= 0 && DistinctIds(g.series) {
      var list := RemoveAt(g.series, idx);
      assert forall j :: 0 <= j < |list| ==> list[j].id != seriesId by {
        forall j | 0 <= j < |list|
          ensures list[j].id != seriesId
        {
          if j >= idx {
            assert list[j] == g.series[j + 1];
          }
        }
      }
      EnsureListsSpec(g.data - {seriesId}, list);
    }
  }

  /**
   * `removeGroup(groupId)` before its alignment: refused for the last group and an unknown id;
   * otherwise the group goes, the active group falls back to the last remaining one if it was
   * the removed group, and every series of the group is forgotten by the registry and `autoSeriesMap`.
   */
  function RemoveGroup(st: Store, groupId: nat): (r: Store) {
    var idx := GroupIndex(st.groups, groupId);
    if |st.groups| <= 1 || idx == -1 then st
    else
      var removed := st.groups[idx];
      var rest := RemoveAt(st.groups, idx);
      var active := if st.lastActiveGroupId == Some(removed.id) then Some(rest[|rest| - 1].id) else st.lastActiveGroupId;
      st.(groups := rest, lastActiveGroupId := active,
          labelMap := st.labelMap - SeriesKeys(removed.series),
          autoSeriesMap := ClearIds(st.autoSeriesMap, SeriesIds(removed.series)))
  }

  /** At least one group always remains, a removed group takes exactly its own place, and none of its series is remembered. */
  lemma {:induction false} RemoveGroupSpec(st: Store, groupId: nat)
    requires |st.groups| >= 1
    ensures |RemoveGroup(st, groupId).groups| >= 1
    ensures |st.groups| <= 1 || GroupIndex(st.groups, groupId) == -1 ==> RemoveGroup(st, groupId) == st
    ensures |st.groups| > 1 && GroupIndex(st.groups, groupId) >= 0 ==>
      var idx := GroupIndex(st.groups, groupId);
      var ss := st.groups[idx].series;
      var r := RemoveGroup(st, groupId);
      && r.groups == RemoveAt(st.groups, idx)
      && r.lastActiveGroupId.Some? == st.lastActiveGroupId.Some?
      && (st.lastActiveGroupId == Some(groupId) ==> r.lastActiveGroupId == Some(r.groups[|r.groups| - 1].id))
      && (forall k :: 0 <= k < |ss| && ss[k].normalizedLabel != "" ==> ss[k].normalizedLabel !in r.labelMap)
      && (forall key :: key in st.labelMap && key !in r.labelMap ==> exists k :: 0 <= k < |ss| && ss[k].normalizedLabel == key)
      && |r.autoSeriesMap| == |st.autoSeriesMap|
      && (forall i, k :: 0 <= i < |r.autoSeriesMap| && 0 <= k < |ss| ==> r.autoSeriesMap[i] != Some(ss[k].id))
      && (forall i :: 0 <= i < |r.autoSeriesMap| && r.autoSeriesMap[i] != st.autoSeriesMap[i] ==>
            exists k :: 0 <= k < |ss| && st.autoSeriesMap[i] == Some(ss[k].id))
  {
  }

  // ---------------------------------------------------------------- moving

  datatype MoveOutcome = MoveIgnored | MoveRefusedLastSeries | MoveRefusedDuplicate | Reordered | Moved

  /** `Math.max(0, Math.min(i, n))`. */
  function Clamp(i: int, n: nat): (r: nat)
    ensures r <= n
    ensures 0 <= i <= n ==> r == i
    ensures i < 0 ==> r == 0
    ensures i > n ==> r == n
  {
    if i < 0 then 0 else if i > n then n else i
  }

  /** Where a same-group move lands: the clamped index, one less when the series moves down past its own slot. */
  function ReorderTarget(idx: nat, insertIndex: int, n: nat): (k: nat)
    requires idx < n
    ensures k < n
  {
    var c := Clamp(insertIndex, n);
    if idx < c then c - 1 else c
  }

  /** The two `splice` calls of a reorder: take the element out, put it back at `k`. */
  function Reorder<T>(s: seq<T>, idx: nat, k: nat): (r: seq<T>)
    requires idx < |s| && k < |s|
  {
    InsertAt(RemoveAt(s, idx), k, s[idx])
  }

  /** A reorder permutes the list, puts the moved element at `k`, and keeps the others in their order. */
  lemma {:induction false} ReorderSpec<T>(s: seq<T>, idx: nat, k: nat)
    requires idx < |s| && k < |s|
    ensures multiset(Reorder(s, idx, k)) == multiset(s)
    ensures Reorder(s, idx, k)[k] == s[idx]
    ensures RemoveAt(Reorder(s, idx, k), k) == RemoveAt(s, idx)
    ensures idx == k ==> Reorder(s, idx, k) == s
  {
    var rest := RemoveAt(s, idx);
    MultisetRemoveAt(s, idx);
    MultisetInsertAt(rest, k, s[idx]);
    RemoveInsert(rest, k, s[idx]);
    if idx == k {
      assert Reorder(s, idx, k) == s by {
        assert s == s[..idx] + [s[idx]] + s[idx + 1..];
      }
    }
  }

  lemma {:induction false} MultisetRemoveAt<T>(s: seq<T>, k: nat)
    requires k < |s|
    ensures multiset(RemoveAt(s, k)) + multiset{s[k]} == multiset(s)
  {
    assert s == s[..k] + [s[k]] + s[k + 1..];
  }

  lemma {:induction false} MultisetInsertAt<T>(s: seq<T>, k: nat, x: T)
    requires k <= |s|
    ensures multiset(InsertAt(s, k, x)) == multiset(s) + multiset{x}
  {
    assert s == s[..k] + s[k..];
  }

  lemma {:induction false} RemoveInsert<T>(s: seq<T>, k: nat, x: T)
    requires k <= |s|
    ensures RemoveAt(InsertAt(s, k, x), k) == s
  {
  }

  /** The cross-group branch: the series leaves the source, joins the target at the clamped index, and its points follow it. */
  function Transfer(st: Store, si: nat, ti: nat, idx: nat, insertIndex: int): (r: Store)
    requires si < |st.groups| && ti < |st.groups| && idx < |st.groups[si].series|
  {
    var source, target := st.groups[si], st.groups[ti];
    var s := source.series[idx];
    var moved := s.(groupId := target.id);
    var labels := if s.normalizedLabel != "" then st.labelMap[s.normalizedLabel := LabelRef(target.id, s.id)] else st.labelMap;
    var sourceList := RemoveAt(source.series, idx);
    var targetList := InsertAt(target.series, Clamp(insertIndex, |target.series|), moved);
    var points := if s.id in source.data then source.data[s.id] else [];
    var source' := source.(series := sourceList, data := EnsureLists(source.data - {s.id}, sourceList));
    var target' := target.(series := targetList, data := EnsureLists(target.data[s.id := points], targetList));
    st.(groups := st.groups[si := source'][ti := target'], labelMap := labels)
  }

  /**
   * `moveSeriesBetweenGroups(seriesId, from, to, insertIndex)` before its alignment: a
   * reorder within one group (nothing when the slot does not change), or a transfer that
   * refuses to empty the source group and to carry a key registered to another series.
   */
  function MoveSeries(st: Store, seriesId: nat, fromId: nat, toId: nat, insertIndex: int): (r: (Store, MoveOutcome)) {
    var si := GroupIndex(st.groups, fromId);
    var ti := GroupIndex(st.groups, toId);
    if si < 0 || ti < 0 then (st, MoveIgnored)
    else
      var source := st.groups[si];
      var idx := SeriesIndex(source.series, seriesId);
      if idx < 0 then (st, MoveIgnored)
      else if fromId != toId && |source.series| <= 1 then (st, MoveRefusedLastSeries)
      else if fromId == toId then
        var k := ReorderTarget(idx, insertIndex, |source.series|);
        if idx == k then (st, MoveIgnored)
        else
          var list := Reorder(source.series, idx, k);
          (st.(groups := st.groups[si := source.(series := list, data := EnsureLists(source.data, list))]), Reordered)
      else
        var s := source.series[idx];
        if s.normalizedLabel != "" && s.normalizedLabel in st.labelMap && st.labelMap[s.normalizedLabel].seriesId != s.id then
          (st, MoveRefusedDuplicate)
        else (Transfer(st, si, ti, idx, insertIndex), Moved)
  }

  /** Every refusal leaves the store as it was; a group never loses its last series to a move. */
  lemma {:induction false} MoveSeriesOutcome(st: Store, seriesId: nat, fromId: nat, toId: nat, insertIndex: int)
    ensures var (r, outcome) := MoveSeries(st, seriesId, fromId, toId, insertIndex);
            outcome != Reordered && outcome != Moved ==> r == st
    ensures var si := GroupIndex(st.groups, fromId);
            MoveSeries(st, seriesId, fromId, toId, insertIndex).1 == MoveRefusedLastSeries
            <==> si >= 0 && GroupIndex(st.groups, toId) >= 0 && SeriesIndex(st.groups[si].series, seriesId) >= 0
                 && fromId != toId && |st.groups[si].series| <= 1
    ensures MoveSeries(st, seriesId, fromId, toId, insertIndex).1 == Reordered ==>
            var si := GroupIndex(st.groups, fromId);
            var idx := SeriesIndex(st.groups[si].series, seriesId);
            var k := ReorderTarget(idx, insertIndex, |st.groups[si].series|);
            && fromId == toId && idx != k
            && MoveSeries(st, seriesId, fromId, toId, insertIndex).0.groups[si].series == Reorder(st.groups[si].series, idx, k)
  {
  }

  /** A transfer takes the series out of the source and puts it, re-homed, into the target at the clamped index, with its points. */
  lemma {:induction false} TransferSpec(st: Store, si: nat, ti: nat, idx: nat, insertIndex: int)
    requires si < |st.groups| && ti < |st.groups| && idx < |st.groups[si].series| && si != ti
    ensures var s := st.groups[si].series[idx];
            var r := Transfer(st, si, ti, idx, insertIndex);
            && |r.groups| == |st.groups|
            && r.groups[si].series == RemoveAt(st.groups[si].series, idx)
            && r.groups[ti].series == InsertAt(st.groups[ti].series, Clamp(insertIndex, |st.groups[ti].series|),
                                               s.(groupId := st.groups[ti].id))
            && s.id in r.groups[ti].data
            && r.groups[ti].data[s.id] == (if s.id in st.groups[si].data then st.groups[si].data[s.id] else [])
            && (s.normalizedLabel != "" ==> r.labelMap[s.normalizedLabel] == LabelRef(st.groups[ti].id, s.id))
            && (forall j :: 0 <= j < |st.groups| && j != si && j != ti ==> r.groups[j] == st.groups[j])
  {
    var source, target := st.groups[si], st.groups[ti];
    var s := source.series[idx];
    var points := if s.id in source.data then source.data[s.id] else [];
    var targetList := InsertAt(target.series, Clamp(insertIndex, |target.series|), s.(groupId := target.id));
    EnsureListsSpec(target.data[s.id := points], targetList);
  }
}
