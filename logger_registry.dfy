/**
 * The consistency of the logger's label registry (logger/app.js `labelMap` and
 * `autoSeriesMap`) with its groups. `handleIncomingLine` trusts the registry: a registered
 * key names the series its samples go to, and an `autoSeriesMap` slot names the series of an
 * unlabelled index. `Registered` states what the page keeps true between events, and every
 * store operation of the page is shown to keep it.
 */
module LoggerRegistry {
  import opened Wrappers
  import opened LoggerLabels
  import opened LoggerStore
  import opened LoggerRange
  import opened LoggerPersist
  import opened LoggerParse
  import opened LoggerIngest

  // ---------------------------------------------------------------- the invariant

  /** No two groups share an id (`group-n` comes from the counter). */
  predicate UniqueGroupIds(gs: seq<Group>) {
    forall i, j :: 0 <= i < |gs| && 0 <= j < |gs| && gs[i].id == gs[j].id ==> i == j
  }

  /** No two listed series share an id, in one group or across groups (`series-n` comes from the counter). */
  predicate UniqueSeriesIds(gs: seq<Group>) {
    forall gi, si, gj, sj ::
      (0 <= gi < |gs| && 0 <= si < |gs[gi].series| && 0 <= gj < |gs| && 0 <= sj < |gs[gj].series|
       && gs[gi].series[si].id == gs[gj].series[sj].id) ==> gi == gj && si == sj
  }

  /** Every id is at most its counter, so the next `++counter` is fresh. */
  predicate Counted(st: Store) {
    && (forall gi :: 0 <= gi < |st.groups| ==> st.groups[gi].id <= st.groupCounter)
    && (forall gi, si :: 0 <= gi < |st.groups| && 0 <= si < |st.groups[gi].series| ==>
          st.groups[gi].series[si].id <= st.seriesCounter)
  }

  /** Every listed series with a key owns it: `labelMap` maps the key to the series' group and id. */
  predicate KeysOwned(st: Store) {
    forall gi, si ::
      (0 <= gi < |st.groups| && 0 <= si < |st.groups[gi].series| && st.groups[gi].series[si].normalizedLabel != "") ==>
      && st.groups[gi].series[si].normalizedLabel in st.labelMap
      && st.labelMap[st.groups[gi].series[si].normalizedLabel] == LabelRef(st.groups[gi].id, st.groups[gi].series[si].id)
  }

  /** The group `m.groupId` lists the series `m.seriesId`, and its key is `key`. */
  predicate Names(gs: seq<Group>, key: string, m: LabelRef) {
    exists gi, si :: 0 <= gi < |gs| && 0 <= si < |gs[gi].series| && gs[gi].id == m.groupId
      && gs[gi].series[si].id == m.seriesId && gs[gi].series[si].normalizedLabel == key
  }

  /** Every registration has a key and names a listed series with that key. */
  predicate EntriesListed(st: Store) {
    && "" !in st.labelMap
    && forall key :: key in st.labelMap ==> Names(st.groups, key, st.labelMap[key])
  }

  /** Some group lists the series `id`. */
  predicate Lists(gs: seq<Group>, id: nat) {
    exists gi, si :: 0 <= gi < |gs| && 0 <= si < |gs[gi].series| && gs[gi].series[si].id == id
  }

  /** Every filled `autoSeriesMap` slot names a listed series. */
  predicate AutoListed(st: Store) {
    forall i :: 0 <= i < |st.autoSeriesMap| && st.autoSeriesMap[i].Some? ==> Lists(st.groups, st.autoSeriesMap[i].value)
  }

  /** The registry invariant of the logger page. */
  predicate Registered(st: Store) {
    && UniqueGroupIds(st.groups)
    && UniqueSeriesIds(st.groups)
    && Counted(st)
    && KeysOwned(st)
    && EntriesListed(st)
    && AutoListed(st)
  }

  // ---------------------------------------------------------------- what the invariant gives

  /**
   * With the invariant, a sample whose key is registered always lands: the registered group is
   * found, it lists the registered series, and that series is the one whose key the sample has.
   */
  lemma {:induction false} RegisteredKeyLands(st: Store, s: Sample, ts: int)
    requires Registered(st) && SampleKey(s) != "" && SampleKey(s) in st.labelMap
    ensures var m := st.labelMap[SampleKey(s)];
            var gi := GroupIndex(st.groups, m.groupId);
            && gi >= 0 && SeriesIndex(st.groups[gi].series, m.seriesId) >= 0
            && st.groups[gi].series[SeriesIndex(st.groups[gi].series, m.seriesId)].normalizedLabel == SampleKey(s)
            && RouteSample(st, s, ts) == (AppendAt(st, gi, m.seriesId, s.value, ts), true)
  {
    var key := SampleKey(s);
    var m := st.labelMap[key];
    assert Names(st.groups, key, m);
    var gj, sj :| 0 <= gj < |st.groups| && 0 <= sj < |st.groups[gj].series| && st.groups[gj].id == m.groupId
      && st.groups[gj].series[sj].id == m.seriesId && st.groups[gj].series[sj].normalizedLabel == key;
    var gi := GroupIndex(st.groups, m.groupId);
    assert gi == gj;
    var k := SeriesIndex(st.groups[gi].series, m.seriesId);
    assert k >= 0;
    assert k == sj;
    RouteRegistered(st, s, ts);
  }

  /** With the invariant, a filled `autoSeriesMap` slot always finds its series. */
  lemma {:induction false} RegisteredAutoFinds(st: Store, index: nat)
    requires Registered(st) && index < |st.autoSeriesMap| && st.autoSeriesMap[index].Some?
    ensures AutoTarget(st, index).Some?
  {
    var id := st.autoSeriesMap[index].value;
    assert Lists(st.groups, id);
    var gi, si :| 0 <= gi < |st.groups| && 0 <= si < |st.groups[gi].series| && st.groups[gi].series[si].id == id;
    assert SeriesIndex(st.groups[gi].series, id) >= 0;
  }

  // ---------------------------------------------------------------- updates that keep the listing

  /** Two group lists with the same ids and the same series lists, whatever their points and times. */
  predicate SameListing(gs: seq<Group>, hs: seq<Group>) {
    |gs| == |hs| && forall i :: 0 <= i < |gs| ==> hs[i].id == gs[i].id && hs[i].series == gs[i].series
  }

  /** The invariant depends on the groups only through their ids and series lists. */
  lemma {:induction false} ListingKeeps(st: Store, r: Store)
    requires Registered(st) && SameListing(st.groups, r.groups)
    requires r.labelMap == st.labelMap && r.autoSeriesMap == st.autoSeriesMap
    requires r.groupCounter == st.groupCounter && r.seriesCounter == st.seriesCounter
    ensures Registered(r)
  {
    forall key | key in r.labelMap
      ensures Names(r.groups, key, r.labelMap[key])
    {
      assert Names(st.groups, key, st.labelMap[key]);
      var gi, si :| 0 <= gi < |st.groups| && 0 <= si < |st.groups[gi].series| && st.groups[gi].id == st.labelMap[key].groupId
        && st.groups[gi].series[si].id == st.labelMap[key].seriesId && st.groups[gi].series[si].normalizedLabel == key;
      assert r.groups[gi].series[si] == st.groups[gi].series[si];
    }
    forall i | 0 <= i < |r.autoSeriesMap| && r.autoSeriesMap[i].Some?
      ensures Lists(r.groups, r.autoSeriesMap[i].value)
    {
      assert Lists(st.groups, st.autoSeriesMap[i].value);
      var gi, si :| 0 <= gi < |st.groups| && 0 <= si < |st.groups[gi].series| && st.groups[gi].series[si].id == st.autoSeriesMap[i].value;
      assert r.groups[gi].series[si] == st.groups[gi].series[si];
    }
  }

  /** Appending a point changes no listing. */
  lemma {:induction false} AppendAtListing(st: Store, gi: nat, seriesId: nat, value: real, ts: int)
    requires gi < |st.groups|
    ensures SameListing(st.groups, AppendAt(st, gi, seriesId, value, ts).groups)
    ensures AppendAt(st, gi, seriesId, value, ts) == st.(groups := AppendAt(st, gi, seriesId, value, ts).groups)
  {
  }

  /** Alignment only moves times. */
  lemma {:induction false} AlignListing(gs: seq<Group>, recalc: bool)
    ensures SameListing(gs, Align(gs, recalc))
  {
  }

  /** Trimming only shortens point lists. */
  lemma {:induction false} TrimGroupsListing(gs: seq<Group>, c: Cut)
    ensures SameListing(gs, TrimGroups(gs, c).0)
    decreases |gs|
  {
    if gs != [] {
      TrimGroupsListing(gs[..|gs| - 1], c);
    }
  }

  lemma {:induction false} TrimOldestListing(gs: seq<Group>, tenths: nat)
    ensures SameListing(gs, TrimOldest(gs, tenths).0)
  {
    match GlobalRange(gs)
    case None =>
    case Some(r) =>
      var trimmed := TrimGroups(gs, CutFor(r, tenths)).0;
      TrimGroupsListing(gs, CutFor(r, tenths));
      AlignListing(trimmed, true);
  }

  lemma {:induction false} SameListingTrans(gs: seq<Group>, hs: seq<Group>, ks: seq<Group>)
    requires SameListing(gs, hs) && SameListing(hs, ks)
    ensures SameListing(gs, ks)
  {
  }

  /** The retry loop of `saveState` trims, and trimming keeps every listing. */
  lemma {:induction false} RetryListing(gs: seq<Group>, attempt: nat, storage: seq<Group> -> Attempt)
    ensures SameListing(gs, Retry(gs, attempt, storage, TrimOldest).0)
    decreases 3 - attempt
  {
    if attempt < 3 {
      var next := TrimOldest(gs, attempt + 1);
      TrimOldestListing(gs, attempt + 1);
      if next.1 && storage(next.0) == QuotaExceeded {
        RetryListing(next.0, attempt + 1, storage);
        SameListingTrans(gs, next.0, Retry(next.0, attempt + 1, storage, TrimOldest).0);
      }
    }
  }

  /** `saveState` keeps the invariant, whatever the storage answers. */
  lemma {:induction false} SaveKeeps(st: Store, storage: seq<Group> -> Attempt)
    requires Registered(st)
    ensures Registered(st.(groups := Save(st.groups, storage).0))
  {
    if storage(st.groups) == QuotaExceeded {
      RetryListing(st.groups, 0, storage);
    }
    ListingKeeps(st, st.(groups := Save(st.groups, storage).0));
  }

  /** `trimOldestData` keeps the invariant. */
  lemma {:induction false} TrimOldestKeeps(st: Store, tenths: nat)
    requires Registered(st)
    ensures Registered(st.(groups := TrimOldest(st.groups, tenths).0))
  {
    TrimOldestListing(st.groups, tenths);
    ListingKeeps(st, st.(groups := TrimOldest(st.groups, tenths).0));
  }

  /** `alignGroupsToGlobalTimeline` keeps the invariant. */
  lemma {:induction false} AlignKeeps(st: Store, recalc: bool)
    requires Registered(st)
    ensures Registered(st.(groups := Align(st.groups, recalc)))
  {
    AlignListing(st.groups, recalc);
    ListingKeeps(st, st.(groups := Align(st.groups, recalc)));
  }

  /** Every series position of `gs` holds the same series in `hs`, under the same group id. */
  predicate Embeds(gs: seq<Group>, hs: seq<Group>) {
    && |gs| <= |hs|
    && (forall gi :: 0 <= gi < |gs| ==> hs[gi].id == gs[gi].id && |gs[gi].series| <= |hs[gi].series|)
    && (forall gi, si :: 0 <= gi < |gs| && 0 <= si < |gs[gi].series| ==> hs[gi].series[si] == gs[gi].series[si])
  }

  lemma {:induction false} EmbedsNames(gs: seq<Group>, hs: seq<Group>, key: string, m: LabelRef)
    requires Embeds(gs, hs) && Names(gs, key, m)
    ensures Names(hs, key, m)
  {
    var gi, si :| 0 <= gi < |gs| && 0 <= si < |gs[gi].series| && gs[gi].id == m.groupId
      && gs[gi].series[si].id == m.seriesId && gs[gi].series[si].normalizedLabel == key;
    assert hs[gi].series[si] == gs[gi].series[si];
  }

  lemma {:induction false} EmbedsLists(gs: seq<Group>, hs: seq<Group>, id: nat)
    requires Embeds(gs, hs) && Lists(gs, id)
    ensures Lists(hs, id)
  {
    var gi, si :| 0 <= gi < |gs| && 0 <= si < |gs[gi].series| && gs[gi].series[si].id == id;
    assert hs[gi].series[si] == gs[gi].series[si];
  }

  // ---------------------------------------------------------------- creating series and groups

  /**
   * `r` is `st` with one more series `s`, found at position (g, k): every other position of
   * `r` is one of `st`, `s` has the next id and a key nobody owned, and that key is registered to it.
   */
  predicate AddsOne(st: Store, r: Store, g: nat, k: nat, s: Series) {
    && Embeds(st.groups, r.groups)
    && g < |r.groups| && k < |r.groups[g].series| && r.groups[g].series[k] == s
    && (forall gj, sj {:trigger r.groups[gj].series[sj]} ::
          0 <= gj < |r.groups| && 0 <= sj < |r.groups[gj].series| && !(gj == g && sj == k) ==>
          gj < |st.groups| && sj < |st.groups[gj].series| && r.groups[gj].series[sj] == st.groups[gj].series[sj])
    && s.id == st.seriesCounter + 1 == r.seriesCounter
    && s.normalizedLabel != "" && s.normalizedLabel !in st.labelMap
    && r.labelMap == st.labelMap[s.normalizedLabel := LabelRef(r.groups[g].id, s.id)]
    && r.autoSeriesMap == st.autoSeriesMap
  }

  /** A position of `r` other than the added one holds what `st` holds there. */
  lemma {:induction false} OldPosition(st: Store, r: Store, g: nat, k: nat, s: Series, gj: int, sj: int)
    requires AddsOne(st, r, g, k, s)
    requires 0 <= gj < |r.groups| && 0 <= sj < |r.groups[gj].series| && !(gj == g && sj == k)
    ensures gj < |st.groups| && sj < |st.groups[gj].series| && r.groups[gj].series[sj] == st.groups[gj].series[sj]
  {
    var x := r.groups[gj].series[sj];
  }

  /** The added series' id is above every old one, so the ids stay distinct and below the counter. */
  lemma {:induction false} AddsOneIds(st: Store, r: Store, g: nat, k: nat, s: Series)
    requires Registered(st) && AddsOne(st, r, g, k, s)
    ensures UniqueSeriesIds(r.groups)
    ensures forall gj, sj :: 0 <= gj < |r.groups| && 0 <= sj < |r.groups[gj].series| ==> r.groups[gj].series[sj].id <= r.seriesCounter
  {
    forall gj, sj | 0 <= gj < |r.groups| && 0 <= sj < |r.groups[gj].series|
      ensures r.groups[gj].series[sj].id <= r.seriesCounter
      ensures !(gj == g && sj == k) ==> r.groups[gj].series[sj].id < s.id
    {
      if !(gj == g && sj == k) {
        OldPosition(st, r, g, k, s, gj, sj);
      }
    }
    forall gj, sj, gk, sk | 0 <= gj < |r.groups| && 0 <= sj < |r.groups[gj].series| && 0 <= gk < |r.groups| && 0 <= sk < |r.groups[gk].series|
        && r.groups[gj].series[sj].id == r.groups[gk].series[sk].id
      ensures gj == gk && sj == sk
    {
      if !(gj == g && sj == k) && !(gk == g && sk == k) {
        OldPosition(st, r, g, k, s, gj, sj);
        OldPosition(st, r, g, k, s, gk, sk);
      }
    }
  }

  /** The added series owns its key, the old ones keep theirs, and every old entry still names its series. */
  lemma {:induction false} AddsOneKeys(st: Store, r: Store, g: nat, k: nat, s: Series)
    requires Registered(st) && AddsOne(st, r, g, k, s)
    ensures KeysOwned(r) && EntriesListed(r) && AutoListed(r)
  {
    forall gj, sj | 0 <= gj < |r.groups| && 0 <= sj < |r.groups[gj].series| && r.groups[gj].series[sj].normalizedLabel != ""
      ensures r.groups[gj].series[sj].normalizedLabel in r.labelMap
      ensures r.labelMap[r.groups[gj].series[sj].normalizedLabel] == LabelRef(r.groups[gj].id, r.groups[gj].series[sj].id)
    {
      if !(gj == g && sj == k) {
        OldPosition(st, r, g, k, s, gj, sj);
      }
    }
    forall key | key in r.labelMap
      ensures Names(r.groups, key, r.labelMap[key])
    {
      if key != s.normalizedLabel {
        EmbedsNames(st.groups, r.groups, key, st.labelMap[key]);
      }
    }
    forall i | 0 <= i < |r.autoSeriesMap| && r.autoSeriesMap[i].Some?
      ensures Lists(r.groups, r.autoSeriesMap[i].value)
    {
      EmbedsLists(st.groups, r.groups, st.autoSeriesMap[i].value);
    }
  }

  /** A store grown by one created series `s` at the end of the group at `gi` keeps the invariant. */
  lemma {:induction false} GrowKeeps(st: Store, r: Store, gi: nat, s: Series)
    requires Registered(st) && gi < |st.groups|
    requires |r.groups| == |st.groups| && r.groups[gi].series == st.groups[gi].series + [s]
    requires forall j :: 0 <= j < |st.groups| ==> r.groups[j].id == st.groups[j].id
    requires forall j :: 0 <= j < |st.groups| && j != gi ==> r.groups[j].series == st.groups[j].series
    requires s.id == st.seriesCounter + 1 == r.seriesCounter && r.groupCounter == st.groupCounter
    requires s.normalizedLabel != "" && s.normalizedLabel !in st.labelMap
    requires r.labelMap == st.labelMap[s.normalizedLabel := LabelRef(st.groups[gi].id, s.id)]
    requires r.autoSeriesMap == st.autoSeriesMap
    ensures Registered(r)
  {
    var gs, hs := st.groups, r.groups;
    var n := |gs[gi].series|;
    forall gj, sj | 0 <= gj < |gs| && 0 <= sj < |gs[gj].series|
      ensures hs[gj].series[sj] == gs[gj].series[sj]
    {
      if gj == gi {
        assert hs[gi].series[sj] == (gs[gi].series + [s])[sj];
      }
    }
    assert AddsOne(st, r, gi, n, s);
    AddsOneIds(st, r, gi, n, s);
    AddsOneKeys(st, r, gi, n, s);
  }

  /** `appendSeriesToGroup` keeps the invariant. */
  lemma {:induction false} AppendSeriesKeeps(st: Store, gi: nat, wanted: string)
    requires Registered(st) && gi < |st.groups|
    ensures Registered(AppendSeries(st, gi, wanted).0)
  {
    var (r, s) := AppendSeries(st, gi, wanted);
    CreateSeriesRegisters(st, st.groups[gi].id, wanted);
    AppendSeriesSpec(st, gi, wanted);
    GrowKeeps(st, r, gi, s);
  }

  /** A store grown by a last group `r.groups[|st.groups|]` whose one series `s` is created with it, under the next group id. */
  lemma {:induction false} AddGroupKeeps(st: Store, r: Store, s: Series)
    requires Registered(st)
    requires |r.groups| == |st.groups| + 1 && r.groups[..|st.groups|] == st.groups
    requires r.groups[|st.groups|].series == [s] && r.groups[|st.groups|].id == st.groupCounter + 1 == r.groupCounter
    requires s.id == st.seriesCounter + 1 == r.seriesCounter
    requires s.normalizedLabel != "" && s.normalizedLabel !in st.labelMap
    requires r.labelMap == st.labelMap[s.normalizedLabel := LabelRef(st.groupCounter + 1, s.id)]
    requires r.autoSeriesMap == st.autoSeriesMap
    ensures Registered(r)
  {
    var gs, hs := st.groups, r.groups;
    var n := |gs|;
    assert forall j :: 0 <= j < n ==> hs[j] == gs[j];
    assert AddsOne(st, r, n, 0, s);
    AddsOneIds(st, r, n, 0, s);
    AddsOneKeys(st, r, n, 0, s);
  }

  /** `createGroup` keeps the invariant: the counters give the group and its series fresh ids. */
  lemma {:induction false} CreateGroupKeeps(st: Store, name: string)
    requires Registered(st)
    ensures Registered(OpenGroup(st.(groupCounter := st.groupCounter + 1), name, LoggerStore.Numbered("sensor_", st.groupCounter + 1)))
  {
    var st0 := st.(groupCounter := st.groupCounter + 1);
    var wanted := LoggerStore.Numbered("sensor_", st.groupCounter + 1);
    var r := OpenGroup(st0, name, wanted);
    var s := CreateSeries(st0, st0.groupCounter, wanted).1;
    CreateSeriesRegisters(st0, st0.groupCounter, wanted);
    OpenGroupSpec(st0, name, wanted);
    AddGroupKeeps(st, r, s);
  }

  // ---------------------------------------------------------------- renaming

  /** Two group lists with the same group ids and, position by position, series of the same ids. */
  predicate SameShape(gs: seq<Group>, hs: seq<Group>) {
    && |gs| == |hs|
    && (forall gi :: 0 <= gi < |gs| ==> hs[gi].id == gs[gi].id && |hs[gi].series| == |gs[gi].series|)
    && (forall gi, si :: 0 <= gi < |gs| && 0 <= si < |gs[gi].series| ==> hs[gi].series[si].id == gs[gi].series[si].id)
  }

  /** A store of the same shape, counters and `autoSeriesMap` keeps every part of the invariant that is about ids. */
  lemma {:induction false} SameShapeIds(st: Store, r: Store)
    requires Registered(st) && SameShape(st.groups, r.groups)
    requires r.autoSeriesMap == st.autoSeriesMap && r.groupCounter == st.groupCounter && r.seriesCounter == st.seriesCounter
    ensures UniqueGroupIds(r.groups) && UniqueSeriesIds(r.groups) && Counted(r) && AutoListed(r)
  {
    forall i | 0 <= i < |r.autoSeriesMap| && r.autoSeriesMap[i].Some?
      ensures Lists(r.groups, r.autoSeriesMap[i].value)
    {
      assert Lists(st.groups, st.autoSeriesMap[i].value);
      var gi, si :| 0 <= gi < |st.groups| && 0 <= si < |st.groups[gi].series| && st.groups[gi].series[si].id == st.autoSeriesMap[i].value;
      assert r.groups[gi].series[si].id == st.groups[gi].series[si].id;
    }
  }

  /**
   * The label editor keeps the invariant: the key it takes is free or already the series' own,
   * and the key it gives up was the series' own.
   */
  lemma {:induction false} RenameKeeps(st: Store, gi: nat, si: nat, input: string)
    requires Registered(st) && gi < |st.groups| && si < |st.groups[gi].series|
    ensures Registered(RenameSeries(st, gi, si, input).0)
  {
    var (r, outcome) := RenameSeries(st, gi, si, input);
    if outcome.Renamed? {
      var key := NormalizeLabel(SanitizeText(input));
      RenameIsRenamedTo(st, gi, si, input);
      RenamedToShape(st, r, gi, si, key, SanitizeText(input));
      SameShapeIds(st, r);
      RenameOwned(st, r, gi, si, key, SanitizeText(input));
      RenameNamed(st, r, gi, si, key, SanitizeText(input));
    }
  }

  /** What renaming the series at (gi, si) to `key` does to the groups and the registry. */
  predicate RenamedTo(st: Store, r: Store, gi: nat, si: nat, key: string, text: string) {
    && gi < |st.groups| && si < |st.groups[gi].series|
    && key != "" && (key !in st.labelMap || st.labelMap[key].seriesId == st.groups[gi].series[si].id)
    && |r.groups| == |st.groups| && r.groups[gi].id == st.groups[gi].id
    && r.groups[gi].series == st.groups[gi].series[si := st.groups[gi].series[si].(labelText := text, normalizedLabel := key)]
    && (forall j :: 0 <= j < |st.groups| && j != gi ==> r.groups[j] == st.groups[j])
    && r.labelMap == Unregister(st.labelMap, st.groups[gi].series[si].normalizedLabel)[key := LabelRef(st.groups[gi].id, st.groups[gi].series[si].id)]
  }

  lemma {:induction false} RenameIsRenamedTo(st: Store, gi: nat, si: nat, input: string)
    requires gi < |st.groups| && si < |st.groups[gi].series| && RenameSeries(st, gi, si, input).1.Renamed?
    ensures RenamedTo(st, RenameSeries(st, gi, si, input).0, gi, si, NormalizeLabel(SanitizeText(input)), SanitizeText(input))
  {
    RenameRefusesTaken(st, gi, si, input);
  }

  lemma {:induction false} RenamedToShape(st: Store, r: Store, gi: nat, si: nat, key: string, text: string)
    requires RenamedTo(st, r, gi, si, key, text)
    ensures SameShape(st.groups, r.groups)
  {
  }

  /** Another series' key is neither the one given up nor the one taken, since both belong to the renamed series. */
  lemma {:induction false} RenameOthers(st: Store, r: Store, gi: nat, si: nat, key: string, text: string, gj: int, sj: int)
    requires Registered(st) && RenamedTo(st, r, gi, si, key, text)
    requires 0 <= gj < |st.groups| && 0 <= sj < |st.groups[gj].series| && !(gj == gi && sj == si)
    ensures r.groups[gj].series[sj] == st.groups[gj].series[sj]
    ensures st.groups[gj].series[sj].normalizedLabel != "" ==>
              st.groups[gj].series[sj].normalizedLabel != st.groups[gi].series[si].normalizedLabel
              && st.groups[gj].series[sj].normalizedLabel != key
  {
    var x := st.groups[gi].series[si];
    var t := st.groups[gj].series[sj];
    assert x.id != t.id;
    if gj == gi {
      assert r.groups[gi].series[sj] == t;
    }
  }

  /** Every listed series owns its key after a rename. */
  lemma {:induction false} RenameOwned(st: Store, r: Store, gi: nat, si: nat, key: string, text: string)
    requires Registered(st) && RenamedTo(st, r, gi, si, key, text)
    ensures KeysOwned(r)
  {
    forall gj, sj | 0 <= gj < |r.groups| && 0 <= sj < |r.groups[gj].series| && r.groups[gj].series[sj].normalizedLabel != ""
      ensures r.groups[gj].series[sj].normalizedLabel in r.labelMap
      ensures r.labelMap[r.groups[gj].series[sj].normalizedLabel] == LabelRef(r.groups[gj].id, r.groups[gj].series[sj].id)
    {
      if !(gj == gi && sj == si) {
        assert |r.groups[gj].series| == |st.groups[gj].series|;
        RenameOthers(st, r, gi, si, key, text, gj, sj);
      }
    }
  }

  /** Every registration names its series after a rename. */
  lemma {:induction false} RenameNamed(st: Store, r: Store, gi: nat, si: nat, key: string, text: string)
    requires Registered(st) && RenamedTo(st, r, gi, si, key, text)
    ensures EntriesListed(r)
  {
    var old0 := st.groups[gi].series[si].normalizedLabel;
    forall k | k in r.labelMap
      ensures Names(r.groups, k, r.labelMap[k])
    {
      if k == key {
        assert r.groups[gi].series[si].normalizedLabel == key;
      } else {
        assert k in st.labelMap && k != old0;
        assert Names(st.groups, k, st.labelMap[k]);
        var gj, sj :| 0 <= gj < |st.groups| && 0 <= sj < |st.groups[gj].series| && st.groups[gj].id == st.labelMap[k].groupId
          && st.groups[gj].series[sj].id == st.labelMap[k].seriesId && st.groups[gj].series[sj].normalizedLabel == k;
        RenameOthers(st, r, gi, si, key, text, gj, sj);
      }
    }
  }

  // ---------------------------------------------------------------- removing a series

  /** The store after the series at (gi, idx) is taken out of its group, its key and its auto slots forgotten. */
  predicate DropsSeries(st: Store, r: Store, gi: nat, idx: nat) {
    && gi < |st.groups| && idx < |st.groups[gi].series|
    && |r.groups| == |st.groups| && r.groups[gi].id == st.groups[gi].id
    && r.groups[gi].series == RemoveAt(st.groups[gi].series, idx)
    && (forall j :: 0 <= j < |st.groups| && j != gi ==> r.groups[j].id == st.groups[j].id && r.groups[j].series == st.groups[j].series)
    && r.labelMap == Unregister(st.labelMap, st.groups[gi].series[idx].normalizedLabel)
    && r.autoSeriesMap == ClearIds(st.autoSeriesMap, {st.groups[gi].series[idx].id})
    && r.groupCounter == st.groupCounter && r.seriesCounter == st.seriesCounter
  }

  /** Where a position of the shortened group was before: at or after the gap, one further on. */
  function Back(gj: int, sj: int, gi: int, idx: int): int {
    if gj == gi && sj >= idx then sj + 1 else sj
  }

  /** Where a position other than the removed one is afterwards: after the gap, one back. */
  function Fwd(gj: int, sj: int, gi: int, idx: int): int {
    if gj == gi && sj > idx then sj - 1 else sj
  }

  lemma {:induction false} DropsBack(st: Store, r: Store, gi: nat, idx: nat, gj: int, sj: int)
    requires DropsSeries(st, r, gi, idx)
    requires 0 <= gj < |r.groups| && 0 <= sj < |r.groups[gj].series|
    ensures 0 <= Back(gj, sj, gi, idx) < |st.groups[gj].series| && !(gj == gi && Back(gj, sj, gi, idx) == idx)
    ensures r.groups[gj].series[sj] == st.groups[gj].series[Back(gj, sj, gi, idx)]
  {
  }

  lemma {:induction false} DropsFwd(st: Store, r: Store, gi: nat, idx: nat, gj: int, sj: int)
    requires DropsSeries(st, r, gi, idx)
    requires 0 <= gj < |st.groups| && 0 <= sj < |st.groups[gj].series| && !(gj == gi && sj == idx)
    ensures 0 <= Fwd(gj, sj, gi, idx) < |r.groups[gj].series|
    ensures r.groups[gj].series[Fwd(gj, sj, gi, idx)] == st.groups[gj].series[sj]
  {
    if gj == gi {
      assert r.groups[gi].series[Fwd(gj, sj, gi, idx)] == RemoveAt(st.groups[gi].series, idx)[Fwd(gj, sj, gi, idx)];
    }
  }

  /** The ids after a removal are among the old ones, each still at one position. */
  lemma {:induction false} DropsIds(st: Store, r: Store, gi: nat, idx: nat)
    requires Registered(st) && DropsSeries(st, r, gi, idx)
    ensures UniqueGroupIds(r.groups) && UniqueSeriesIds(r.groups) && Counted(r)
  {
    forall gj, sj | 0 <= gj < |r.groups| && 0 <= sj < |r.groups[gj].series|
      ensures r.groups[gj].series[sj].id <= r.seriesCounter
    {
      DropsBack(st, r, gi, idx, gj, sj);
    }
    forall gj, sj, gk, sk | 0 <= gj < |r.groups| && 0 <= sj < |r.groups[gj].series| && 0 <= gk < |r.groups| && 0 <= sk < |r.groups[gk].series|
        && r.groups[gj].series[sj].id == r.groups[gk].series[sk].id
      ensures gj == gk && sj == sk
    {
      DropsBack(st, r, gi, idx, gj, sj);
      DropsBack(st, r, gi, idx, gk, sk);
    }
  }

  /** A series other than the removed one has another key, since keys name their owners. */
  lemma {:induction false} OtherKey(st: Store, gi: nat, idx: nat, gj: int, sj: int)
    requires Registered(st) && gi < |st.groups| && idx < |st.groups[gi].series|
    requires 0 <= gj < |st.groups| && 0 <= sj < |st.groups[gj].series| && !(gj == gi && sj == idx)
    requires st.groups[gj].series[sj].normalizedLabel != ""
    ensures st.groups[gj].series[sj].normalizedLabel != st.groups[gi].series[idx].normalizedLabel
  {
    assert st.groups[gj].series[sj].id != st.groups[gi].series[idx].id;
  }

  /** After a removal the remaining series keep their keys. */
  lemma {:induction false} DropsOwned(st: Store, r: Store, gi: nat, idx: nat)
    requires Registered(st) && DropsSeries(st, r, gi, idx)
    ensures KeysOwned(r)
  {
    forall gj, sj | 0 <= gj < |r.groups| && 0 <= sj < |r.groups[gj].series| && r.groups[gj].series[sj].normalizedLabel != ""
      ensures r.groups[gj].series[sj].normalizedLabel in r.labelMap
      ensures r.labelMap[r.groups[gj].series[sj].normalizedLabel] == LabelRef(r.groups[gj].id, r.groups[gj].series[sj].id)
    {
      DropsBack(st, r, gi, idx, gj, sj);
      OtherKey(st, gi, idx, gj, Back(gj, sj, gi, idx));
    }
  }

  /** After a removal every remaining registration names its series. */
  lemma {:induction false} DropsNamed(st: Store, r: Store, gi: nat, idx: nat)
    requires Registered(st) && DropsSeries(st, r, gi, idx)
    ensures EntriesListed(r)
  {
    forall k | k in r.labelMap
      ensures Names(r.groups, k, r.labelMap[k])
    {
      assert Names(st.groups, k, st.labelMap[k]);
      var gj, sj :| 0 <= gj < |st.groups| && 0 <= sj < |st.groups[gj].series| && st.groups[gj].id == st.labelMap[k].groupId
        && st.groups[gj].series[sj].id == st.labelMap[k].seriesId && st.groups[gj].series[sj].normalizedLabel == k;
      assert !(gj == gi && sj == idx);
      DropsFwd(st, r, gi, idx, gj, sj);
    }
  }

  /** After a removal every filled auto slot names a remaining series. */
  lemma {:induction false} DropsAuto(st: Store, r: Store, gi: nat, idx: nat)
    requires Registered(st) && DropsSeries(st, r, gi, idx)
    ensures AutoListed(r)
  {
    var x := st.groups[gi].series[idx];
    forall i | 0 <= i < |r.autoSeriesMap| && r.autoSeriesMap[i].Some?
      ensures Lists(r.groups, r.autoSeriesMap[i].value)
    {
      var v := r.autoSeriesMap[i].value;
      assert st.autoSeriesMap[i] == Some(v) && v != x.id;
      assert Lists(st.groups, v);
      var gj, sj :| 0 <= gj < |st.groups| && 0 <= sj < |st.groups[gj].series| && st.groups[gj].series[sj].id == v;
      DropsFwd(st, r, gi, idx, gj, sj);
    }
  }

  /** `removeSeries` keeps the invariant. */
  lemma {:induction false} RemoveSeriesKeeps(st: Store, gi: nat, seriesId: nat)
    requires Registered(st) && gi < |st.groups|
    ensures Registered(RemoveSeries(st, gi, seriesId))
  {
    var g := st.groups[gi];
    var idx := SeriesIndex(g.series, seriesId);
    if |g.series| > 1 && idx >= 0 {
      var r := RemoveSeries(st, gi, seriesId);
      assert DropsSeries(st, r, gi, idx);
      DropsIds(st, r, gi, idx);
      DropsOwned(st, r, gi, idx);
      DropsNamed(st, r, gi, idx);
      DropsAuto(st, r, gi, idx);
    }
  }

  // ---------------------------------------------------------------- removing a group

  /** The store after the group at `idx` is taken out, with its series' keys and auto slots forgotten. */
  predicate DropsGroup(st: Store, r: Store, idx: nat) {
    && idx < |st.groups|
    && r.groups == RemoveAt(st.groups, idx)
    && r.labelMap == st.labelMap - SeriesKeys(st.groups[idx].series)
    && r.autoSeriesMap == ClearIds(st.autoSeriesMap, SeriesIds(st.groups[idx].series))
    && r.groupCounter == st.groupCounter && r.seriesCounter == st.seriesCounter
  }

  /** Where a group of the shortened list was before. */
  function GroupBack(gj: int, idx: int): int {
    if gj >= idx then gj + 1 else gj
  }

  /** Where a group other than the removed one is afterwards. */
  function GroupFwd(gj: int, idx: int): int {
    if gj > idx then gj - 1 else gj
  }

  lemma {:induction false} DropsGroupBack(st: Store, r: Store, idx: nat, gj: int)
    requires DropsGroup(st, r, idx) && 0 <= gj < |r.groups|
    ensures 0 <= GroupBack(gj, idx) < |st.groups| && GroupBack(gj, idx) != idx
    ensures r.groups[gj] == st.groups[GroupBack(gj, idx)]
  {
  }

  lemma {:induction false} DropsGroupFwd(st: Store, r: Store, idx: nat, gj: int)
    requires DropsGroup(st, r, idx) && 0 <= gj < |st.groups| && gj != idx
    ensures 0 <= GroupFwd(gj, idx) < |r.groups|
    ensures r.groups[GroupFwd(gj, idx)] == st.groups[gj]
  {
  }

  lemma {:induction false} DropsGroupIds(st: Store, r: Store, idx: nat)
    requires Registered(st) && DropsGroup(st, r, idx)
    ensures UniqueGroupIds(r.groups) && UniqueSeriesIds(r.groups) && Counted(r)
  {
    forall i, j | 0 <= i < |r.groups| && 0 <= j < |r.groups| && r.groups[i].id == r.groups[j].id
      ensures i == j
    {
      DropsGroupBack(st, r, idx, i);
      DropsGroupBack(st, r, idx, j);
    }
    forall gj | 0 <= gj < |r.groups|
      ensures r.groups[gj].id <= r.groupCounter
    {
      DropsGroupBack(st, r, idx, gj);
    }
    forall gj, sj | 0 <= gj < |r.groups| && 0 <= sj < |r.groups[gj].series|
      ensures r.groups[gj].series[sj].id <= r.seriesCounter
    {
      DropsGroupBack(st, r, idx, gj);
    }
    forall gj, sj, gk, sk | 0 <= gj < |r.groups| && 0 <= sj < |r.groups[gj].series| && 0 <= gk < |r.groups| && 0 <= sk < |r.groups[gk].series|
        && r.groups[gj].series[sj].id == r.groups[gk].series[sk].id
      ensures gj == gk && sj == sk
    {
      DropsGroupBack(st, r, idx, gj);
      DropsGroupBack(st, r, idx, gk);
    }
  }

  /** A series outside the removed group has none of its keys. */
  lemma {:induction false} KeyOutsideGroup(st: Store, idx: nat, gj: int, sj: int)
    requires Registered(st) && idx < |st.groups|
    requires 0 <= gj < |st.groups| && gj != idx && 0 <= sj < |st.groups[gj].series|
    requires st.groups[gj].series[sj].normalizedLabel != ""
    ensures st.groups[gj].series[sj].normalizedLabel !in SeriesKeys(st.groups[idx].series)
  {
  }

  lemma {:induction false} DropsGroupOwned(st: Store, r: Store, idx: nat)
    requires Registered(st) && DropsGroup(st, r, idx)
    ensures KeysOwned(r)
  {
    forall gj, sj | 0 <= gj < |r.groups| && 0 <= sj < |r.groups[gj].series| && r.groups[gj].series[sj].normalizedLabel != ""
      ensures r.groups[gj].series[sj].normalizedLabel in r.labelMap
      ensures r.labelMap[r.groups[gj].series[sj].normalizedLabel] == LabelRef(r.groups[gj].id, r.groups[gj].series[sj].id)
    {
      DropsGroupBack(st, r, idx, gj);
      KeyOutsideGroup(st, idx, GroupBack(gj, idx), sj);
    }
  }

  lemma {:induction false} DropsGroupNamed(st: Store, r: Store, idx: nat)
    requires Registered(st) && DropsGroup(st, r, idx)
    ensures EntriesListed(r) && AutoListed(r)
  {
    forall k | k in r.labelMap
      ensures Names(r.groups, k, r.labelMap[k])
    {
      assert Names(st.groups, k, st.labelMap[k]);
      var gj, sj :| 0 <= gj < |st.groups| && 0 <= sj < |st.groups[gj].series| && st.groups[gj].id == st.labelMap[k].groupId
        && st.groups[gj].series[sj].id == st.labelMap[k].seriesId && st.groups[gj].series[sj].normalizedLabel == k;
      DropsGroupFwd(st, r, idx, gj);
      assert r.groups[GroupFwd(gj, idx)].series[sj] == st.groups[gj].series[sj];
    }
    forall i | 0 <= i < |r.autoSeriesMap| && r.autoSeriesMap[i].Some?
      ensures Lists(r.groups, r.autoSeriesMap[i].value)
    {
      var v := r.autoSeriesMap[i].value;
      assert st.autoSeriesMap[i] == Some(v) && v !in SeriesIds(st.groups[idx].series);
      assert Lists(st.groups, v);
      var gj, sj :| 0 <= gj < |st.groups| && 0 <= sj < |st.groups[gj].series| && st.groups[gj].series[sj].id == v;
      DropsGroupFwd(st, r, idx, gj);
      assert r.groups[GroupFwd(gj, idx)].series[sj] == st.groups[gj].series[sj];
    }
  }

  /** `removeGroup` keeps the invariant. */
  lemma {:induction false} RemoveGroupKeeps(st: Store, groupId: nat)
    requires Registered(st)
    ensures Registered(RemoveGroup(st, groupId))
  {
    var idx := GroupIndex(st.groups, groupId);
    if |st.groups| > 1 && idx >= 0 {
      var r := RemoveGroup(st, groupId);
      assert DropsGroup(st, r, idx);
      DropsGroupIds(st, r, idx);
      DropsGroupOwned(st, r, idx);
      DropsGroupNamed(st, r, idx);
    }
  }

  // ---------------------------------------------------------------- reordering a group

  /** Where position `p` of `Reorder(s, idx, k)` comes from in `s`. */
  function ReorderFrom(p: int, idx: int, k: int): int {
    if p == k then idx
    else
      var q := if p < k then p else p - 1;
      if q >= idx then q + 1 else q
  }

  /** Where position `q` of `s` lands in `Reorder(s, idx, k)`. */
  function ReorderTo(q: int, idx: int, k: int): int {
    if q == idx then k
    else
      var m := if q < idx then q else q - 1;
      if m < k then m else m + 1
  }

  lemma {:induction false} ReorderAt<T>(s: seq<T>, idx: nat, k: nat, p: int)
    requires idx < |s| && k < |s| && 0 <= p < |s|
    ensures 0 <= ReorderFrom(p, idx, k) < |s| && Reorder(s, idx, k)[p] == s[ReorderFrom(p, idx, k)]
    ensures 0 <= ReorderTo(p, idx, k) < |s| && Reorder(s, idx, k)[ReorderTo(p, idx, k)] == s[p]
  {
  }

  /** The store after the series of the group at `gi` are put in the order `Reorder(_, idx, k)`. */
  predicate ReordersGroup(st: Store, r: Store, gi: nat, idx: nat, k: nat) {
    && gi < |st.groups| && idx < |st.groups[gi].series| && k < |st.groups[gi].series|
    && |r.groups| == |st.groups| && r.groups[gi].id == st.groups[gi].id
    && r.groups[gi].series == Reorder(st.groups[gi].series, idx, k)
    && (forall j :: 0 <= j < |st.groups| && j != gi ==> r.groups[j].id == st.groups[j].id && r.groups[j].series == st.groups[j].series)
    && r.labelMap == st.labelMap && r.autoSeriesMap == st.autoSeriesMap
    && r.groupCounter == st.groupCounter && r.seriesCounter == st.seriesCounter
  }

  /** Where a position of the reordered store was before. */
  function ReorderBack(gj: int, sj: int, gi: int, idx: int, k: int): int {
    if gj == gi then ReorderFrom(sj, idx, k) else sj
  }

  /** Where a position is after the reorder. */
  function ReorderFwd(gj: int, sj: int, gi: int, idx: int, k: int): int {
    if gj == gi then ReorderTo(sj, idx, k) else sj
  }

  lemma {:induction false} ReordersBack(st: Store, r: Store, gi: nat, idx: nat, k: nat, gj: int, sj: int)
    requires ReordersGroup(st, r, gi, idx, k) && 0 <= gj < |r.groups| && 0 <= sj < |r.groups[gj].series|
    ensures 0 <= ReorderBack(gj, sj, gi, idx, k) < |st.groups[gj].series|
    ensures r.groups[gj].series[sj] == st.groups[gj].series[ReorderBack(gj, sj, gi, idx, k)]
  {
    if gj == gi {
      ReorderAt(st.groups[gi].series, idx, k, sj);
    }
  }

  lemma {:induction false} ReordersFwd(st: Store, r: Store, gi: nat, idx: nat, k: nat, gj: int, sj: int)
    requires ReordersGroup(st, r, gi, idx, k) && 0 <= gj < |st.groups| && 0 <= sj < |st.groups[gj].series|
    ensures 0 <= ReorderFwd(gj, sj, gi, idx, k) < |r.groups[gj].series|
    ensures r.groups[gj].series[ReorderFwd(gj, sj, gi, idx, k)] == st.groups[gj].series[sj]
  {
    if gj == gi {
      ReorderAt(st.groups[gi].series, idx, k, sj);
    }
  }

  lemma {:induction false} ReordersIds(st: Store, r: Store, gi: nat, idx: nat, k: nat)
    requires Registered(st) && ReordersGroup(st, r, gi, idx, k)
    ensures UniqueGroupIds(r.groups) && UniqueSeriesIds(r.groups) && Counted(r)
  {
    forall gj, sj | 0 <= gj < |r.groups| && 0 <= sj < |r.groups[gj].series|
      ensures r.groups[gj].series[sj].id <= r.seriesCounter
    {
      ReordersBack(st, r, gi, idx, k, gj, sj);
    }
    forall gj, sj, gk, sk | 0 <= gj < |r.groups| && 0 <= sj < |r.groups[gj].series| && 0 <= gk < |r.groups| && 0 <= sk < |r.groups[gk].series|
        && r.groups[gj].series[sj].id == r.groups[gk].series[sk].id
      ensures gj == gk && sj == sk
    {
      ReordersBack(st, r, gi, idx, k, gj, sj);
      ReordersBack(st, r, gi, idx, k, gk, sk);
    }
  }

  lemma {:induction false} ReordersKeys(st: Store, r: Store, gi: nat, idx: nat, k: nat)
    requires Registered(st) && ReordersGroup(st, r, gi, idx, k)
    ensures KeysOwned(r) && EntriesListed(r) && AutoListed(r)
  {
    forall gj, sj | 0 <= gj < |r.groups| && 0 <= sj < |r.groups[gj].series| && r.groups[gj].series[sj].normalizedLabel != ""
      ensures r.groups[gj].series[sj].normalizedLabel in r.labelMap
      ensures r.labelMap[r.groups[gj].series[sj].normalizedLabel] == LabelRef(r.groups[gj].id, r.groups[gj].series[sj].id)
    {
      ReordersBack(st, r, gi, idx, k, gj, sj);
    }
    forall key | key in r.labelMap
      ensures Names(r.groups, key, r.labelMap[key])
    {
      assert Names(st.groups, key, st.labelMap[key]);
      var gj, sj :| 0 <= gj < |st.groups| && 0 <= sj < |st.groups[gj].series| && st.groups[gj].id == st.labelMap[key].groupId
        && st.groups[gj].series[sj].id == st.labelMap[key].seriesId && st.groups[gj].series[sj].normalizedLabel == key;
      ReordersFwd(st, r, gi, idx, k, gj, sj);
    }
    forall i | 0 <= i < |r.autoSeriesMap| && r.autoSeriesMap[i].Some?
      ensures Lists(r.groups, r.autoSeriesMap[i].value)
    {
      assert Lists(st.groups, st.autoSeriesMap[i].value);
      var gj, sj :| 0 <= gj < |st.groups| && 0 <= sj < |st.groups[gj].series| && st.groups[gj].series[sj].id == st.autoSeriesMap[i].value;
      ReordersFwd(st, r, gi, idx, k, gj, sj);
    }
  }

  // ---------------------------------------------------------------- moving a series to another group

  /** Same id and key: what a move keeps of a series. */
  predicate SameSeries(a: Series, b: Series) {
    a.id == b.id && a.normalizedLabel == b.normalizedLabel
  }

  /** The store after the series at (si, idx) moves to position `c` of the group at `ti`, its key following it. */
  predicate Transfers(st: Store, r: Store, si: nat, ti: nat, idx: nat, c: nat) {
    && si < |st.groups| && ti < |st.groups| && si != ti && idx < |st.groups[si].series| && c <= |st.groups[ti].series|
    && |r.groups| == |st.groups|
    && (forall j :: 0 <= j < |st.groups| ==> r.groups[j].id == st.groups[j].id)
    && r.groups[si].series == RemoveAt(st.groups[si].series, idx)
    && r.groups[ti].series == InsertAt(st.groups[ti].series, c, st.groups[si].series[idx].(groupId := st.groups[ti].id))
    && (forall j :: 0 <= j < |st.groups| && j != si && j != ti ==> r.groups[j].series == st.groups[j].series)
    && r.labelMap == (if st.groups[si].series[idx].normalizedLabel != "" then
                        st.labelMap[st.groups[si].series[idx].normalizedLabel := LabelRef(st.groups[ti].id, st.groups[si].series[idx].id)]
                      else st.labelMap)
    && r.autoSeriesMap == st.autoSeriesMap
    && r.groupCounter == st.groupCounter && r.seriesCounter == st.seriesCounter
  }

  /** Where a position after the move was before: the group ... */
  function MovedBackGroup(gj: int, sj: int, si: int, ti: int, c: int): int {
    if gj == ti && sj == c then si else gj
  }

  /** ... and the position in it. */
  function MovedBack(gj: int, sj: int, si: int, ti: int, idx: int, c: int): int {
    if gj == si then (if sj >= idx then sj + 1 else sj)
    else if gj == ti then (if sj == c then idx else if sj < c then sj else sj - 1)
    else sj
  }

  /** Where a position other than the moved series' is after the move. */
  function MovedFwd(gj: int, sj: int, si: int, ti: int, idx: int, c: int): int {
    if gj == si then (if sj > idx then sj - 1 else sj)
    else if gj == ti then (if sj < c then sj else sj + 1)
    else sj
  }

  lemma {:induction false} TransfersBack(st: Store, r: Store, si: nat, ti: nat, idx: nat, c: nat, gj: int, sj: int)
    requires Transfers(st, r, si, ti, idx, c) && 0 <= gj < |r.groups| && 0 <= sj < |r.groups[gj].series|
    ensures var g := MovedBackGroup(gj, sj, si, ti, c);
            0 <= g < |st.groups| && 0 <= MovedBack(gj, sj, si, ti, idx, c) < |st.groups[g].series|
            && SameSeries(r.groups[gj].series[sj], st.groups[g].series[MovedBack(gj, sj, si, ti, idx, c)])
    ensures !(gj == ti && sj == c) ==> r.groups[gj].series[sj] == st.groups[gj].series[MovedBack(gj, sj, si, ti, idx, c)]
    ensures !(gj == ti && sj == c) ==> !(gj == si && MovedBack(gj, sj, si, ti, idx, c) == idx)
  {
    if gj == si {
      assert r.groups[si].series[sj] == RemoveAt(st.groups[si].series, idx)[sj];
    } else if gj == ti {
      assert r.groups[ti].series[sj] == InsertAt(st.groups[ti].series, c, st.groups[si].series[idx].(groupId := st.groups[ti].id))[sj];
    }
  }

  lemma {:induction false} TransfersFwd(st: Store, r: Store, si: nat, ti: nat, idx: nat, c: nat, gj: int, sj: int)
    requires Transfers(st, r, si, ti, idx, c) && 0 <= gj < |st.groups| && 0 <= sj < |st.groups[gj].series| && !(gj == si && sj == idx)
    ensures 0 <= MovedFwd(gj, sj, si, ti, idx, c) < |r.groups[gj].series|
    ensures r.groups[gj].series[MovedFwd(gj, sj, si, ti, idx, c)] == st.groups[gj].series[sj]
  {
    if gj == si {
      assert r.groups[si].series[MovedFwd(gj, sj, si, ti, idx, c)] == RemoveAt(st.groups[si].series, idx)[MovedFwd(gj, sj, si, ti, idx, c)];
    } else if gj == ti {
      var x' := st.groups[si].series[idx].(groupId := st.groups[ti].id);
      assert r.groups[ti].series[MovedFwd(gj, sj, si, ti, idx, c)] == InsertAt(st.groups[ti].series, c, x')[MovedFwd(gj, sj, si, ti, idx, c)];
    }
  }

  lemma {:induction false} TransfersMoved(st: Store, r: Store, si: nat, ti: nat, idx: nat, c: nat)
    requires Transfers(st, r, si, ti, idx, c)
    ensures c < |r.groups[ti].series| && r.groups[ti].series[c] == st.groups[si].series[idx].(groupId := st.groups[ti].id)
  {
  }

  /** Distinct positions after a move come from distinct positions before it. */
  lemma {:induction false} MovedBackInjective(gj: int, sj: int, gk: int, sk: int, si: int, ti: int, idx: int, c: int)
    requires si != ti && 0 <= sj && 0 <= sk
    requires MovedBackGroup(gj, sj, si, ti, c) == MovedBackGroup(gk, sk, si, ti, c)
    requires MovedBack(gj, sj, si, ti, idx, c) == MovedBack(gk, sk, si, ti, idx, c)
    requires !(gj == ti && sj == c) ==> !(gj == si && MovedBack(gj, sj, si, ti, idx, c) == idx)
    requires !(gk == ti && sk == c) ==> !(gk == si && MovedBack(gk, sk, si, ti, idx, c) == idx)
    ensures gj == gk && sj == sk
  {
  }

  lemma {:induction false} TransfersIds(st: Store, r: Store, si: nat, ti: nat, idx: nat, c: nat)
    requires Registered(st) && Transfers(st, r, si, ti, idx, c)
    ensures UniqueGroupIds(r.groups) && UniqueSeriesIds(r.groups) && Counted(r)
  {
    TransfersCounted(st, r, si, ti, idx, c);
    TransfersUnique(st, r, si, ti, idx, c);
  }

  lemma {:induction false} TransfersCounted(st: Store, r: Store, si: nat, ti: nat, idx: nat, c: nat)
    requires Registered(st) && Transfers(st, r, si, ti, idx, c)
    ensures Counted(r)
  {
    forall gj, sj | 0 <= gj < |r.groups| && 0 <= sj < |r.groups[gj].series|
      ensures r.groups[gj].series[sj].id <= r.seriesCounter
    {
      TransfersBack(st, r, si, ti, idx, c, gj, sj);
    }
  }

  lemma {:induction false} TransfersUnique(st: Store, r: Store, si: nat, ti: nat, idx: nat, c: nat)
    requires Registered(st) && Transfers(st, r, si, ti, idx, c)
    ensures UniqueSeriesIds(r.groups)
  {
    forall gj, sj, gk, sk | 0 <= gj < |r.groups| && 0 <= sj < |r.groups[gj].series| && 0 <= gk < |r.groups| && 0 <= sk < |r.groups[gk].series|
        && r.groups[gj].series[sj].id == r.groups[gk].series[sk].id
      ensures gj == gk && sj == sk
    {
      TransfersBack(st, r, si, ti, idx, c, gj, sj);
      TransfersBack(st, r, si, ti, idx, c, gk, sk);
      MovedBackInjective(gj, sj, gk, sk, si, ti, idx, c);
    }
  }

  lemma {:induction false} TransfersOwned(st: Store, r: Store, si: nat, ti: nat, idx: nat, c: nat)
    requires Registered(st) && Transfers(st, r, si, ti, idx, c)
    ensures KeysOwned(r)
  {
    forall gj, sj | 0 <= gj < |r.groups| && 0 <= sj < |r.groups[gj].series| && r.groups[gj].series[sj].normalizedLabel != ""
      ensures r.groups[gj].series[sj].normalizedLabel in r.labelMap
      ensures r.labelMap[r.groups[gj].series[sj].normalizedLabel] == LabelRef(r.groups[gj].id, r.groups[gj].series[sj].id)
    {
      TransfersBack(st, r, si, ti, idx, c, gj, sj);
      if !(gj == ti && sj == c) {
        OtherKey(st, si, idx, gj, MovedBack(gj, sj, si, ti, idx, c));
      }
    }
  }

  lemma {:induction false} TransfersNamed(st: Store, r: Store, si: nat, ti: nat, idx: nat, c: nat)
    requires Registered(st) && Transfers(st, r, si, ti, idx, c)
    ensures EntriesListed(r)
  {
    var x := st.groups[si].series[idx];
    TransfersMoved(st, r, si, ti, idx, c);
    forall key | key in r.labelMap
      ensures Names(r.groups, key, r.labelMap[key])
    {
      if key != x.normalizedLabel {
        assert Names(st.groups, key, st.labelMap[key]);
        var gj, sj :| 0 <= gj < |st.groups| && 0 <= sj < |st.groups[gj].series| && st.groups[gj].id == st.labelMap[key].groupId
          && st.groups[gj].series[sj].id == st.labelMap[key].seriesId && st.groups[gj].series[sj].normalizedLabel == key;
        TransfersFwd(st, r, si, ti, idx, c, gj, sj);
      }
    }
  }

  lemma {:induction false} TransfersAuto(st: Store, r: Store, si: nat, ti: nat, idx: nat, c: nat)
    requires Registered(st) && Transfers(st, r, si, ti, idx, c)
    ensures AutoListed(r)
  {
    TransfersMoved(st, r, si, ti, idx, c);
    forall i | 0 <= i < |r.autoSeriesMap| && r.autoSeriesMap[i].Some?
      ensures Lists(r.groups, r.autoSeriesMap[i].value)
    {
      assert Lists(st.groups, st.autoSeriesMap[i].value);
      var gj, sj :| 0 <= gj < |st.groups| && 0 <= sj < |st.groups[gj].series| && st.groups[gj].series[sj].id == st.autoSeriesMap[i].value;
      if !(gj == si && sj == idx) {
        TransfersFwd(st, r, si, ti, idx, c, gj, sj);
      }
    }
  }

  /** A reorder by `moveSeriesBetweenGroups` is `ReordersGroup`. */
  lemma {:induction false} MoveIsReorder(st: Store, seriesId: nat, fromId: nat, toId: nat, insertIndex: int)
    requires MoveSeries(st, seriesId, fromId, toId, insertIndex).1 == Reordered
    ensures var si := GroupIndex(st.groups, fromId);
            var idx := SeriesIndex(st.groups[si].series, seriesId);
            ReordersGroup(st, MoveSeries(st, seriesId, fromId, toId, insertIndex).0, si, idx,
                          ReorderTarget(idx, insertIndex, |st.groups[si].series|))
  {
    MoveSeriesOutcome(st, seriesId, fromId, toId, insertIndex);
  }

  /** A move across groups by `moveSeriesBetweenGroups` is `Transfers`. */
  lemma {:induction false} MoveIsTransfer(st: Store, seriesId: nat, fromId: nat, toId: nat, insertIndex: int)
    requires MoveSeries(st, seriesId, fromId, toId, insertIndex).1 == Moved
    ensures var si := GroupIndex(st.groups, fromId);
            var ti := GroupIndex(st.groups, toId);
            var idx := SeriesIndex(st.groups[si].series, seriesId);
            Transfers(st, MoveSeries(st, seriesId, fromId, toId, insertIndex).0, si, ti, idx,
                      Clamp(insertIndex, |st.groups[ti].series|))
  {
    var si := GroupIndex(st.groups, fromId);
    var ti := GroupIndex(st.groups, toId);
    TransferSpec(st, si, ti, SeriesIndex(st.groups[si].series, seriesId), insertIndex);
  }

  /** `moveSeriesBetweenGroups` keeps the invariant, whether it reorders a group or moves a series across. */
  lemma {:induction false} MoveSeriesKeeps(st: Store, seriesId: nat, fromId: nat, toId: nat, insertIndex: int)
    requires Registered(st)
    ensures Registered(MoveSeries(st, seriesId, fromId, toId, insertIndex).0)
  {
    var (r, outcome) := MoveSeries(st, seriesId, fromId, toId, insertIndex);
    MoveSeriesOutcome(st, seriesId, fromId, toId, insertIndex);
    var si := GroupIndex(st.groups, fromId);
    var ti := GroupIndex(st.groups, toId);
    if outcome == Reordered {
      var idx := SeriesIndex(st.groups[si].series, seriesId);
      var k := ReorderTarget(idx, insertIndex, |st.groups[si].series|);
      MoveIsReorder(st, seriesId, fromId, toId, insertIndex);
      ReordersIds(st, r, si, idx, k);
      ReordersKeys(st, r, si, idx, k);
    } else if outcome == Moved {
      var idx := SeriesIndex(st.groups[si].series, seriesId);
      var c := Clamp(insertIndex, |st.groups[ti].series|);
      MoveIsTransfer(st, seriesId, fromId, toId, insertIndex);
      TransfersIds(st, r, si, ti, idx, c);
      TransfersOwned(st, r, si, ti, idx, c);
      TransfersNamed(st, r, si, ti, idx, c);
      TransfersAuto(st, r, si, ti, idx, c);
    }
  }

  // ---------------------------------------------------------------- routing samples

  /** Which group is active is no part of the invariant. */
  lemma {:induction false} ActiveKeeps(st: Store, active: Option<nat>)
    requires Registered(st)
    ensures Registered(st.(lastActiveGroupId := active))
  {
    var r := st.(lastActiveGroupId := active);
    assert r.groups == st.groups && r.labelMap == st.labelMap && r.autoSeriesMap == st.autoSeriesMap;
    assert r.groupCounter == st.groupCounter && r.seriesCounter == st.seriesCounter;
  }

  /** Recording a listed series in an `autoSeriesMap` slot keeps the invariant; the holes `SetAt` leaves are empty. */
  lemma {:induction false} SetAutoKeeps(st: Store, index: nat, id: nat)
    requires Registered(st) && Lists(st.groups, id)
    ensures Registered(st.(autoSeriesMap := SetAt(st.autoSeriesMap, index, Some(id))))
  {
    var r := st.(autoSeriesMap := SetAt(st.autoSeriesMap, index, Some(id)));
    forall i | 0 <= i < |r.autoSeriesMap| && r.autoSeriesMap[i].Some?
      ensures Lists(r.groups, r.autoSeriesMap[i].value)
    {
      if i != index {
        assert i < |st.autoSeriesMap| && r.autoSeriesMap[i] == st.autoSeriesMap[i];
      }
    }
  }

  /** Appending a point keeps the invariant. */
  lemma {:induction false} AppendAtKeeps(st: Store, gi: nat, seriesId: nat, value: real, ts: int)
    requires Registered(st) && gi < |st.groups|
    ensures Registered(AppendAt(st, gi, seriesId, value, ts))
  {
    AppendAtListing(st, gi, seriesId, value, ts);
    ListingKeeps(st, AppendAt(st, gi, seriesId, value, ts));
  }

  /** A series made for a new key, in the active group, keeps the invariant. */
  lemma {:induction false} ToNewSeriesKeeps(st: Store, gi: nat, name: string, value: real, ts: int)
    requires Registered(st) && gi < |st.groups|
    ensures Registered(ToNewSeries(st, gi, name, value, ts))
  {
    var st0 := st.(lastActiveGroupId := Some(st.groups[gi].id));
    ActiveKeeps(st, Some(st.groups[gi].id));
    var (st1, series) := AppendSeries(st0, gi, name);
    AppendSeriesKeeps(st0, gi, name);
    AppendSeriesSpec(st0, gi, name);
    AppendAtKeeps(st1, gi, series.id, value, ts);
  }

  /** The series of an unlabelled value, found or made and then recorded, keeps the invariant. */
  lemma {:induction false} ToAutoSeriesKeeps(st: Store, index: nat, value: real, ts: int)
    requires Registered(st) && st.groups != []
    ensures Registered(ToAutoSeries(st, index, value, ts))
  {
    match AutoTarget(st, index)
    case Some((gi, id)) =>
      AppendAtKeeps(st, gi, id, value, ts);
    case None =>
      var (st1, series) := AppendSeries(st, 0, AutoName(index));
      AppendSeriesKeeps(st, 0, AutoName(index));
      AppendSeriesSpec(st, 0, AutoName(index));
      var n := |st.groups[0].series|;
      assert st1.groups[0].series[n] == series;
      assert Lists(st1.groups, series.id);
      SetAutoKeeps(st1, index, series.id);
      var st2 := st1.(autoSeriesMap := SetAt(st1.autoSeriesMap, index, Some(series.id)));
      AppendAtKeeps(st2, 0, series.id, value, ts);
  }

  /** Routing one sample keeps the invariant. */
  lemma {:induction false} RouteSampleKeeps(st: Store, s: Sample, ts: int)
    requires Registered(st)
    ensures Registered(RouteSample(st, s, ts).0)
  {
    var key := SampleKey(s);
    if key != "" && key in st.labelMap {
      var m := st.labelMap[key];
      var gi := GroupIndex(st.groups, m.groupId);
      if gi >= 0 && SeriesIndex(st.groups[gi].series, m.seriesId) >= 0 {
        AppendAtKeeps(st, gi, m.seriesId, s.value, ts);
      }
    } else if key != "" {
      match ActiveGroup(st)
      case None =>
      case Some(gi) => ToNewSeriesKeeps(st, gi, s.name.value, s.value, ts);
    } else if st.groups != [] {
      ToAutoSeriesKeeps(st, s.unlabeledIndex.GetOr(0), s.value, ts);
    }
  }

  /** Routing every sample of a line keeps the invariant. */
  lemma {:induction false} RouteAllKeeps(st: Store, samples: seq<Sample>, ts: int)
    requires Registered(st)
    ensures Registered(RouteAll(st, samples, ts).0)
    decreases |samples|
  {
    if samples != [] {
      RouteSampleKeeps(st, samples[0], ts);
      RouteAllKeeps(RouteSample(st, samples[0], ts).0, samples[1..], ts);
    }
  }

  /** `handleIncomingLine` keeps the invariant, whatever the line holds. */
  lemma {:induction false} HandleLineKeeps(st: Store, text: string, parse: JsonParser, ts: int)
    requires Registered(st)
    ensures Registered(HandleLine(st, text, parse, ts))
  {
    var samples := Incoming(text, parse);
    RouteAllKeeps(st, samples, ts);
    var (st1, appended) := RouteAll(st, samples, ts);
    if appended {
      AlignKeeps(st1, false);
    }
  }

  /** The empty store the page starts from satisfies the invariant. */
  lemma {:induction false} EmptyRegistered()
    ensures Registered(Store([], map[], [], 0, 0, None))
  {
  }

  // ---------------------------------------------------------------- the intended lookup

  /**
   * Under the intended routing, the second sample with a label reaches the series the first
   * one registered: one point appended to it, and no series made.
   */
  lemma {:induction false} RepeatedLabelJoins(st: Store, s: Sample, ts1: int, ts2: int)
    requires Registered(st) && st.groups != [] && s.name.Some? && IntendedKey(s) != ""
    ensures var st1 := RouteIntended(st, s, ts1).0;
            && st1.seriesCounter <= st.seriesCounter + 1
            && IntendedKey(s) in st1.labelMap
            && var m := st1.labelMap[IntendedKey(s)];
               var gi := GroupIndex(st1.groups, m.groupId);
               && gi >= 0 && SeriesIndex(st1.groups[gi].series, m.seriesId) >= 0
               && RouteIntended(st1, s, ts2) == (AppendAt(st1, gi, m.seriesId, s.value, ts2), true)
  {
    IntendedRouteRegisters(st, s, ts1);
    RouteSampleKeeps(st, SanitizedSample(s), ts1);
    RegisteredKeyLands(RouteIntended(st, s, ts1).0, SanitizedSample(s), ts2);
  }

  /** Two lines carrying `a<b` make at most one series under the intended routing (two as written). */
  lemma {:induction false} MarkupLabelJoinsSeries(st: Store, ts1: int, ts2: int)
    requires Registered(st) && st.groups != []
    ensures var s := Sample(Some("a<b"), 1.0, None);
            var st1 := RouteIntended(st, s, ts1).0;
            RouteIntended(st1, s, ts2).0.seriesCounter <= st.seriesCounter + 1
  {
    var s := Sample(Some("a<b"), 1.0, None);
    assert SanitizeText("a<b") != "" by {
      assert StripMarkup("a<b")[0] == 'a';
    }
    NormalizeCleanEmpty(SanitizeText("a<b"));
    RepeatedLabelJoins(st, s, ts1, ts2);
  }
}

