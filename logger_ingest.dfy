/**
 * Routing of parsed samples into the series store (logger/app.js `handleIncomingLine`).
 * A labelled sample goes to the series its key is registered to, or to a new series of the
 * active group; an unlabelled sample with index `i` goes to the series `autoSeriesMap[i]`
 * while that series exists, and otherwise to a new series `auto_{i+1}` of the first group,
 * which is then recorded at `autoSeriesMap[i]`. Every sample of one line carries the same
 * timestamp, and the groups are aligned once after the line.
 */
module LoggerIngest {
  import opened Wrappers
  import opened Text
  import opened LoggerLabels
  import opened LoggerStore
  import opened LoggerRange
  import opened LoggerParse

  /** `normalizeLabel(sample.label)`; a `null` label normalises to the empty key. */
  function SampleKey(s: Sample): (key: string)
    ensures s.name.None? ==> key == ""
  {
    match s.name
    case None => ""
    case Some(l) => NormalizeLabel(l)
  }

  /** `findSeriesById(id)`: the first group listing the id, and the series' index in it. */
  function FindSeries(gs: seq<Group>, id: nat): (r: Option<(nat, nat)>)
    ensures r.Some? ==> r.value.0 < |gs| && r.value.1 as int == SeriesIndex(gs[r.value.0].series, id) >= 0
    ensures r.Some? ==> forall j :: 0 <= j < r.value.0 ==> SeriesIndex(gs[j].series, id) == -1
    ensures r.None? <==> forall j :: 0 <= j < |gs| ==> SeriesIndex(gs[j].series, id) == -1
    decreases |gs|
  {
    if gs == [] then None
    else
      var k := SeriesIndex(gs[0].series, id);
      if k >= 0 then Some((0, k as nat))
      else match FindSeries(gs[1..], id)
        case None => None
        case Some((g, j)) => Some((g + 1, j))
  }

  /** `autoSeriesMap[index] = value` on a JavaScript array: positions past the end are created as holes. */
  function SetAt(m: seq<Option<nat>>, index: nat, value: Option<nat>): (r: seq<Option<nat>>)
    ensures |r| == if index < |m| then |m| else index + 1
    ensures r[index] == value
    ensures forall j :: 0 <= j < |m| && j != index ==> r[j] == m[j]
    ensures forall j :: |m| <= j < |r| && j != index ==> r[j].None?
  {
    if index < |m| then m[index := value] else m + seq(index - |m|, _ => None) + [value]
  }

  /** `appendPoint(group, series, value, timestamp)` on the group at `gi`. */
  function AppendAt(st: Store, gi: nat, seriesId: nat, value: real, ts: int): (r: Store)
    requires gi < |st.groups|
  {
    st.(groups := st.groups[gi := AppendPoint(st.groups[gi], seriesId, value, ts)])
  }

  /** The point for a registered key: appended to the registered series when its group still lists it. */
  function ToRegistered(st: Store, m: LabelRef, value: real, ts: int): (Store, bool) {
    var gi := GroupIndex(st.groups, m.groupId);
    if gi < 0 || SeriesIndex(st.groups[gi].series, m.seriesId) < 0 then (st, false)
    else (AppendAt(st, gi, m.seriesId, value, ts), true)
  }

  /** The point for a new key: a series named after the label is added to the group at `gi`, which becomes the active one. */
  function ToNewSeries(st: Store, gi: nat, name: string, value: real, ts: int): Store
    requires gi < |st.groups|
  {
    var (st1, series) := AppendSeries(st.(lastActiveGroupId := Some(st.groups[gi].id)), gi, name);
    AppendAt(st1, gi, series.id, value, ts)
  }

  /** The label an unlabelled value at `index` gets: `auto_${index + 1}`. */
  function AutoName(index: nat): string {
    "auto_" + NatToString(index + 1)
  }

  /** The series `autoSeriesMap[index]` points to, as (group index, series id), while some group lists it. */
  function AutoTarget(st: Store, index: nat): (r: Option<(nat, nat)>)
    ensures r.Some? ==> r.value.0 < |st.groups| && SeriesIndex(st.groups[r.value.0].series, r.value.1) >= 0
    ensures r.Some? <==> index < |st.autoSeriesMap| && st.autoSeriesMap[index].Some?
                         && FindSeries(st.groups, st.autoSeriesMap[index].value).Some?
    ensures r.Some? ==> r.value.1 == st.autoSeriesMap[index].value
  {
    if index < |st.autoSeriesMap| && st.autoSeriesMap[index].Some? then
      match FindSeries(st.groups, st.autoSeriesMap[index].value)
      case None => None
      case Some((gi, _)) => Some((gi, st.autoSeriesMap[index].value))
    else None
  }

  /** The point for an unlabelled value: its mapped series, or a new `auto_` series of the first group recorded in the map. */
  function ToAutoSeries(st: Store, index: nat, value: real, ts: int): Store
    requires st.groups != []
  {
    match AutoTarget(st, index)
    case Some((gi, id)) => AppendAt(st, gi, id, value, ts)
    case None =>
      var (st1, series) := AppendSeries(st, 0, AutoName(index));
      var st2 := st1.(autoSeriesMap := SetAt(st1.autoSeriesMap, index, Some(series.id)));
      AppendAt(st2, 0, series.id, value, ts)
  }

  /** What `handleIncomingLine` does with one sample: the new store, and whether a point was appended. */
  function RouteSample(st: Store, s: Sample, ts: int): (Store, bool) {
    var key := SampleKey(s);
    if key != "" && key in st.labelMap then ToRegistered(st, st.labelMap[key], s.value, ts)
    else if key != "" then
      match ActiveGroup(st)
      case None => (st, false)
      case Some(gi) => (ToNewSeries(st, gi, s.name.value, s.value, ts), true)
    else if st.groups != [] then (ToAutoSeries(st, s.unlabeledIndex.GetOr(0), s.value, ts), true)
    else (st, false)
  }

  /** The `samples.forEach` loop: samples routed in order, `appended` set by any of them. */
  function RouteAll(st: Store, samples: seq<Sample>, ts: int): (Store, bool)
    decreases |samples|
  {
    if samples == [] then (st, false)
    else
      var (st1, a) := RouteSample(st, samples[0], ts);
      var (st2, b) := RouteAll(st1, samples[1..], ts);
      (st2, a || b)
  }

  /** `handleIncomingLine` on parsed samples, stamped `ts`: routing, then one alignment if anything was appended. */
  function HandleSamples(st: Store, samples: seq<Sample>, ts: int): Store {
    var (st1, appended) := RouteAll(st, samples, ts);
    if appended then st1.(groups := Align(st1.groups, false)) else st1
  }

  /** `handleIncomingLine(text)` with `Date.now()` = `ts`. */
  function HandleLine(st: Store, text: string, parse: JsonParser, ts: int): Store {
    HandleSamples(st, Incoming(text, parse), ts)
  }

  // ---------------------------------------------------------------- one timestamp per line

  /** `ts` stamps every point `h` has beyond `g`'s: old lists are prefixes, and new lists hold only `ts` points. */
  predicate GroupExtends(g: Group, h: Group, ts: int) {
    && g.data.Keys <= h.data.Keys
    && forall id :: id in h.data ==>
         var before := if id in g.data then g.data[id] else [];
         && |before| <= |h.data[id]| && h.data[id][..|before|] == before
         && forall k :: |before| <= k < |h.data[id]| ==> h.data[id][k].t == ts
  }

  predicate Extends(gs: seq<Group>, hs: seq<Group>, ts: int) {
    |gs| == |hs| && forall i :: 0 <= i < |gs| ==> GroupExtends(gs[i], hs[i], ts)
  }

  lemma {:induction false} GroupExtendsRefl(g: Group, ts: int)
    ensures GroupExtends(g, g, ts)
  {
  }

  lemma {:induction false} GroupExtendsTrans(g: Group, h: Group, k: Group, ts: int)
    requires GroupExtends(g, h, ts) && GroupExtends(h, k, ts)
    ensures GroupExtends(g, k, ts)
  {
    forall id | id in k.data
      ensures var before := if id in g.data then g.data[id] else [];
              && |before| <= |k.data[id]| && k.data[id][..|before|] == before
              && forall j :: |before| <= j < |k.data[id]| ==> k.data[id][j].t == ts
    {
      var before := if id in g.data then g.data[id] else [];
      var mid := if id in h.data then h.data[id] else [];
      assert |before| <= |mid| && mid[..|before|] == before;
      assert k.data[id][..|mid|] == mid;
      assert k.data[id][..|before|] == mid[..|before|];
      forall j | |before| <= j < |k.data[id]|
        ensures k.data[id][j].t == ts
      {
        if j < |mid| {
          assert k.data[id][j] == mid[j];
        }
      }
    }
  }

  lemma {:induction false} ExtendsTrans(gs: seq<Group>, hs: seq<Group>, ks: seq<Group>, ts: int)
    requires Extends(gs, hs, ts) && Extends(hs, ks, ts)
    ensures Extends(gs, ks, ts)
  {
    forall i | 0 <= i < |gs|
      ensures GroupExtends(gs[i], ks[i], ts)
    {
      GroupExtendsTrans(gs[i], hs[i], ks[i], ts);
    }
  }

  lemma {:induction false} ExtendsAt(gs: seq<Group>, i: nat, h: Group, ts: int)
    requires i < |gs| && GroupExtends(gs[i], h, ts)
    ensures Extends(gs, gs[i := h], ts)
  {
    forall j | 0 <= j < |gs| && j != i
      ensures GroupExtends(gs[j], gs[i := h][j], ts)
    {
      GroupExtendsRefl(gs[j], ts);
    }
  }

  /** Appending a point stamped `ts` extends the group. */
  lemma {:induction false} AppendPointExtends(g: Group, seriesId: nat, value: real, ts: int)
    ensures GroupExtends(g, AppendPoint(g, seriesId, value, ts), ts)
  {
    var h := AppendPoint(g, seriesId, value, ts);
    var before := if seriesId in g.data then g.data[seriesId] else [];
    assert h.data[seriesId][..|before|] == before;
  }

  /** Adding a series only adds an empty list. */
  lemma {:induction false} AppendSeriesExtends(st: Store, gi: nat, wanted: string, ts: int)
    requires gi < |st.groups|
    ensures Extends(st.groups, AppendSeries(st, gi, wanted).0.groups, ts)
  {
    var g := st.groups[gi];
    var r := AppendSeries(st, gi, wanted);
    var h := r.0.groups[gi];
    EnsureListsSpec(g.data, h.series);
    assert h.data == EnsureLists(g.data, h.series);
    assert GroupExtends(g, h, ts);
    assert r.0.groups == st.groups[gi := h];
    ExtendsAt(st.groups, gi, h, ts);
  }

  lemma {:induction false} AppendAtExtends(st: Store, gi: nat, seriesId: nat, value: real, ts: int)
    requires gi < |st.groups|
    ensures Extends(st.groups, AppendAt(st, gi, seriesId, value, ts).groups, ts)
  {
    AppendPointExtends(st.groups[gi], seriesId, value, ts);
    ExtendsAt(st.groups, gi, AppendPoint(st.groups[gi], seriesId, value, ts), ts);
  }

  lemma {:induction false} ExtendsRefl(gs: seq<Group>, ts: int)
    ensures Extends(gs, gs, ts)
  {
    forall i | 0 <= i < |gs|
      ensures GroupExtends(gs[i], gs[i], ts)
    {
      GroupExtendsRefl(gs[i], ts);
    }
  }

  lemma {:induction false} ToNewSeriesExtends(st: Store, gi: nat, name: string, value: real, ts: int)
    requires gi < |st.groups|
    ensures Extends(st.groups, ToNewSeries(st, gi, name, value, ts).groups, ts)
  {
    var st0 := st.(lastActiveGroupId := Some(st.groups[gi].id));
    var (st1, series) := AppendSeries(st0, gi, name);
    AppendSeriesExtends(st0, gi, name, ts);
    AppendAtExtends(st1, gi, series.id, value, ts);
    ExtendsTrans(st.groups, st1.groups, AppendAt(st1, gi, series.id, value, ts).groups, ts);
  }

  lemma {:induction false} ToAutoSeriesExtends(st: Store, index: nat, value: real, ts: int)
    requires st.groups != []
    ensures Extends(st.groups, ToAutoSeries(st, index, value, ts).groups, ts)
  {
    match AutoTarget(st, index)
    case Some((gi, id)) =>
      AppendAtExtends(st, gi, id, value, ts);
    case None =>
      var (st1, series) := AppendSeries(st, 0, AutoName(index));
      var st2 := st1.(autoSeriesMap := SetAt(st1.autoSeriesMap, index, Some(series.id)));
      AppendSeriesExtends(st, 0, AutoName(index), ts);
      AppendAtExtends(st2, 0, series.id, value, ts);
      ExtendsTrans(st.groups, st1.groups, AppendAt(st2, 0, series.id, value, ts).groups, ts);
  }

  lemma {:induction false} RouteSampleExtends(st: Store, s: Sample, ts: int)
    ensures Extends(st.groups, RouteSample(st, s, ts).0.groups, ts)
  {
    var key := SampleKey(s);
    ExtendsRefl(st.groups, ts);
    if key != "" && key in st.labelMap {
      var m := st.labelMap[key];
      var gi := GroupIndex(st.groups, m.groupId);
      if gi >= 0 && SeriesIndex(st.groups[gi].series, m.seriesId) >= 0 {
        AppendAtExtends(st, gi, m.seriesId, s.value, ts);
      }
    } else if key != "" {
      if ActiveGroup(st).Some? {
        ToNewSeriesExtends(st, ActiveGroup(st).value, s.name.value, s.value, ts);
      }
    } else if st.groups != [] {
      ToAutoSeriesExtends(st, s.unlabeledIndex.GetOr(0), s.value, ts);
    }
  }

  lemma {:induction false} RouteAllExtends(st: Store, samples: seq<Sample>, ts: int)
    ensures Extends(st.groups, RouteAll(st, samples, ts).0.groups, ts)
    decreases |samples|
  {
    if samples == [] {
      ExtendsRefl(st.groups, ts);
    } else {
      var st1 := RouteSample(st, samples[0], ts).0;
      RouteSampleExtends(st, samples[0], ts);
      RouteAllExtends(st1, samples[1..], ts);
      ExtendsTrans(st.groups, st1.groups, RouteAll(st1, samples[1..], ts).0.groups, ts);
    }
  }

  /**
   * One line, one timestamp: after `handleIncomingLine` every point list of every group starts
   * with the points it had before, and every point beyond those carries the line's timestamp.
   */
  lemma {:induction false} HandleLineStampsOnce(st: Store, text: string, parse: JsonParser, ts: int)
    ensures Extends(st.groups, HandleLine(st, text, parse, ts).groups, ts)
  {
    var samples := Incoming(text, parse);
    var (st1, appended) := RouteAll(st, samples, ts);
    RouteAllExtends(st, samples, ts);
    if appended {
      AlignKeepsContent(st1.groups, false);
      var aligned := Align(st1.groups, false);
      assert forall i :: 0 <= i < |aligned| ==> aligned[i].data == st1.groups[i].data;
      forall i | 0 <= i < |st.groups|
        ensures GroupExtends(st.groups[i], aligned[i], ts)
      {
        assert GroupExtends(st.groups[i], st1.groups[i], ts);
      }
    }
  }

  // ---------------------------------------------------------------- where a sample goes

  /** A sample whose key is registered lands in the registered series, when its group still lists it, and nothing else changes. */
  lemma {:induction false} RouteRegistered(st: Store, s: Sample, ts: int)
    requires SampleKey(s) != "" && SampleKey(s) in st.labelMap
    ensures var m := st.labelMap[SampleKey(s)];
            var gi := GroupIndex(st.groups, m.groupId);
            && (gi >= 0 && SeriesIndex(st.groups[gi].series, m.seriesId) >= 0 ==>
                  RouteSample(st, s, ts) == (AppendAt(st, gi, m.seriesId, s.value, ts), true))
            && (gi < 0 || SeriesIndex(st.groups[gi].series, m.seriesId) < 0 ==> RouteSample(st, s, ts) == (st, false))
  {
  }

  /** The points a group holds for `id`, `[]` when it has no list. */
  function PointsBefore(g: Group, id: nat): seq<Point> {
    if id in g.data then g.data[id] else []
  }

  /**
   * A series added to the group at `gi` for a value: it is the group's new last series, has the
   * next id and the label `wanted` would get, and its list ends with the value at `ts`.
   */
  predicate AddedFor(st: Store, r: Store, gi: nat, wanted: string, value: real, ts: int)
    requires gi < |st.groups|
  {
    var n := |st.groups[gi].series|;
    var id := st.seriesCounter + 1;
    && |r.groups| == |st.groups| && r.seriesCounter == id
    && |r.groups[gi].series| == n + 1 && r.groups[gi].series[..n] == st.groups[gi].series
    && r.groups[gi].series[n].id == id
    && r.groups[gi].series[n].labelText == NewSeriesLabel(st.labelMap, wanted)
    && id in r.groups[gi].data && r.groups[gi].data[id] == PointsBefore(st.groups[gi], id) + [Point(ts, value)]
    && (forall j :: 0 <= j < |st.groups| && j != gi ==> r.groups[j] == st.groups[j])
  }

  lemma {:induction false} AppendAtAdded(st: Store, gi: nat, wanted: string, value: real, ts: int)
    requires gi < |st.groups|
    ensures var (st1, series) := AppendSeries(st, gi, wanted);
            AddedFor(st, AppendAt(st1, gi, series.id, value, ts), gi, wanted, value, ts)
  {
    var (st1, series) := AppendSeries(st, gi, wanted);
    AppendSeriesSpec(st, gi, wanted);
    CreateSeriesRegisters(st, st.groups[gi].id, wanted);
    var h := st1.groups[gi];
    EnsureListsSpec(st.groups[gi].data, h.series);
    assert h.series[..|st.groups[gi].series|] == st.groups[gi].series;
    assert PointsBefore(h, series.id) == PointsBefore(st.groups[gi], series.id);
  }

  /** A sample with a new key becomes the first point of a new series of the active group, which keeps being active. */
  lemma {:induction false} RouteNewLabel(st: Store, s: Sample, ts: int)
    requires SampleKey(s) != "" && SampleKey(s) !in st.labelMap && st.groups != []
    ensures var gi := ActiveGroup(st).value;
            var r := RouteSample(st, s, ts);
            && r.1 && r.0.lastActiveGroupId == Some(st.groups[gi].id)
            && AddedFor(st, r.0, gi, s.name.value, s.value, ts)
  {
    var gi := ActiveGroup(st).value;
    AppendAtAdded(st.(lastActiveGroupId := Some(st.groups[gi].id)), gi, s.name.value, s.value, ts);
  }

  /** An unlabelled sample with index `i` goes to `autoSeriesMap[i]` while some group lists that series. */
  lemma {:induction false} RouteUnlabelledReuses(st: Store, s: Sample, ts: int)
    requires SampleKey(s) == "" && st.groups != []
    requires AutoTarget(st, s.unlabeledIndex.GetOr(0)).Some?
    ensures var t := AutoTarget(st, s.unlabeledIndex.GetOr(0)).value;
            && RouteSample(st, s, ts) == (AppendAt(st, t.0, t.1, s.value, ts), true)
            && t.1 == st.autoSeriesMap[s.unlabeledIndex.GetOr(0)].value
  {
  }

  /**
   * Otherwise it becomes the first point of a new series `auto_{i+1}` (made unique) of the
   * first group, and `autoSeriesMap[i]` records the new series.
   */
  lemma {:induction false} RouteUnlabelledCreates(st: Store, s: Sample, ts: int)
    requires SampleKey(s) == "" && st.groups != []
    requires AutoTarget(st, s.unlabeledIndex.GetOr(0)).None?
    ensures var i := s.unlabeledIndex.GetOr(0);
            var r := RouteSample(st, s, ts);
            && r.1 && AddedFor(st, r.0, 0, AutoName(i), s.value, ts)
            && r.0.autoSeriesMap == SetAt(st.autoSeriesMap, i, Some(st.seriesCounter + 1))
  {
    var i := s.unlabeledIndex.GetOr(0);
    AppendAtAdded(st, 0, AutoName(i), s.value, ts);
    CreateSeriesRegisters(st, st.groups[0].id, AutoName(i));
  }

  /**
   * A label that sanitising changes, such as `a<b`, is looked up under its raw key while its
   * series is registered under the sanitised one, so every line with it starts another series.
   */
  lemma {:induction false} MarkupLabelSplitsSeries(st: Store, ts1: int, ts2: int)
    requires st.groups != [] && "a<b" !in st.labelMap
    ensures var s := Sample(Some("a<b"), 1.0, None);
            var st1 := RouteSample(st, s, ts1).0;
            && st1.seriesCounter == st.seriesCounter + 1
            && RouteSample(st1, s, ts2).0.seriesCounter == st.seriesCounter + 2
  {
    var s := Sample(Some("a<b"), 1.0, None);
    MarkupKey();
    var gi := ActiveGroup(st).value;
    var st0 := st.(lastActiveGroupId := Some(st.groups[gi].id));
    var st1 := RouteSample(st, s, ts1).0;
    NewLabelKeepsOut(st0, gi, "a<b", 1.0, ts1);
    assert st1 == ToNewSeries(st, gi, "a<b", 1.0, ts1);
    assert "a<b" !in st1.labelMap;
    var gi1 := ActiveGroup(st1).value;
    NewLabelKeepsOut(st1.(lastActiveGroupId := Some(st1.groups[gi1].id)), gi1, "a<b", 1.0, ts2);
  }

  /** The sample with its label sanitised as `createSeries` sanitises the label it registers. */
  function SanitizedSample(s: Sample): (r: Sample)
    ensures r.value == s.value && r.unlabeledIndex == s.unlabeledIndex && r.name.Some? == s.name.Some?
  {
    match s.name
    case None => s
    case Some(l) => s.(name := Some(SanitizeText(l)))
  }

  /** The key the intended lookup uses: `normalizeLabel(sanitizeText(sample.label))`. */
  function IntendedKey(s: Sample): (key: string)
    ensures s.name.Some? ==> key == NormalizeLabel(SanitizeText(s.name.value))
  {
    SampleKey(SanitizedSample(s))
  }

  /** The routing `handleIncomingLine` evidently intends: the lookup key is taken from the sanitised label. */
  function RouteIntended(st: Store, s: Sample, ts: int): (Store, bool) {
    RouteSample(st, SanitizedSample(s), ts)
  }

  /**
   * Under the intended routing a labelled sample with a non-empty key always leaves its key
   * registered, and makes at most one series.
   */
  lemma {:induction false} IntendedRouteRegisters(st: Store, s: Sample, ts: int)
    requires s.name.Some? && st.groups != [] && IntendedKey(s) != ""
    ensures IntendedKey(s) in RouteIntended(st, s, ts).0.labelMap
    ensures RouteIntended(st, s, ts).0.seriesCounter <= st.seriesCounter + 1
  {
    var t := SanitizedSample(s);
    var key := IntendedKey(s);
    var text := SanitizeText(s.name.value);
    if key !in st.labelMap {
      var gi := ActiveGroup(st).value;
      var st0 := st.(lastActiveGroupId := Some(st.groups[gi].id));
      assert text != "";
      SanitizeTextIdempotent(s.name.value);
      assert NewSeriesLabel(st0.labelMap, text) == UniqueLabel(st0.labelMap, text);
      UniqueLabelIsFirstFree(st0.labelMap, text);
      assert NewSeriesLabel(st0.labelMap, text) == text;
      CreateSeriesRegisters(st0, st0.groups[gi].id, text);
      assert RouteIntended(st, s, ts).0 == ToNewSeries(st, gi, text, s.value, ts);
    }
  }

  /** Adding a series for `a<b` registers a key other than `a<b`, and moves the counter on by one. */
  lemma {:induction false} NewLabelKeepsOut(st: Store, gi: nat, wanted: string, value: real, ts: int)
    requires gi < |st.groups| && "a<b" !in st.labelMap
    ensures var (st1, series) := AppendSeries(st, gi, wanted);
            var r := AppendAt(st1, gi, series.id, value, ts);
            && "a<b" !in r.labelMap && r.seriesCounter == st.seriesCounter + 1 && r.groups != []
  {
    CreateSeriesRegisters(st, st.groups[gi].id, wanted);
    var key := CreateSeries(st, st.groups[gi].id, wanted).1.normalizedLabel;
    CleanKeyHasNoMarkup(st.labelMap, wanted);
    assert key != "a<b" by {
      if |key| == 3 {
        assert !IsMarkup(key[1]);
      }
    }
  }

  lemma {:induction false} MarkupKey()
    ensures NormalizeLabel("a<b") == "a<b"
  {
    TrimNoOp("a<b");
    assert Lower("a<b") == "a<b" by {
      LowerAt("a<b", 0);
      LowerAt("a<b", 1);
      LowerAt("a<b", 2);
    }
  }

  /** The key of a created series holds no markup character. */
  lemma {:induction false} CleanKeyHasNoMarkup(labelMap: LabelMap, wanted: string)
    ensures NoMarkup(NormalizeLabel(NewSeriesLabel(labelMap, wanted)))
  {
    var safe := SanitizeText(wanted);
    var base := if safe == "" then "sensor" else safe;
    SensorIsClean();
    UniqueLabelNoMarkup(labelMap, base);
    NormalizeKeepsMarkupFree(NewSeriesLabel(labelMap, wanted));
  }

  lemma {:induction false} UniqueLabelNoMarkup(labelMap: LabelMap, base: string)
    requires IsClean(base)
    ensures NoMarkup(UniqueLabel(labelMap, base))
  {
    if base != "" {
      var n := LeastFree(labelMap, base);
      if n > 1 {
        var u := Suffixed(base, n - 1);
        var tail := "_" + NatToString(n - 1);
        assert forall j :: |base| <= j < |u| ==> u[j] == tail[j - |base|];
      }
    }
  }

  /** Lower-casing and trimming add no markup character. */
  lemma {:induction false} NormalizeKeepsMarkupFree(u: string)
    requires NoMarkup(u)
    ensures NoMarkup(NormalizeLabel(u))
  {
    TrimIsSlice(u);
    var t := Trim(u);
    forall j | 0 <= j < |t|
      ensures !IsMarkup(Lower(t)[j])
    {
      LowerAt(t, j);
    }
  }
}
