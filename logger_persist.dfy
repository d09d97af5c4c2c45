/**
 * Quota-bounded persistence of the logger (logger/app.js `getGlobalDataRange`,
 * `trimOldestData`, `saveState`). When the browser refuses a save for lack of space, the
 * oldest data is evicted — a time slice when the recorded span is positive, a count slice of
 * every series otherwise — and the save is retried, at most three times with growing ratios.
 * The browser storage is an oracle telling whether a given state fits.
 */
module LoggerPersist {
  import opened Wrappers
  import opened LoggerStore
  import opened LoggerRange

  /** The times of every group's listed series' points, group by group. */
  function GlobalTimes(gs: seq<Group>): seq<int>
    decreases |gs|
  {
    if gs == [] then [] else GlobalTimes(gs[..|gs| - 1]) + AllTimes(gs[|gs| - 1])
  }

  /** `getGlobalDataRange` without its point count: `null` exactly when there is no point. */
  function GlobalRange(gs: seq<Group>): Option<Range> {
    RangeOf(GlobalTimes(gs))
  }

  /** One way of cutting a series, fixed for a whole trim. */
  datatype Cut = ByTime(cutoff: int) | ByCount(tenths: nat)

  /** `points.filter((pt) => pt.t >= cutoff)`. */
  function KeepFrom(pts: seq<Point>, cutoff: int): (r: seq<Point>)
    ensures |r| <= |pts|
    decreases |pts|
  {
    if pts == [] then []
    else
      var rest := KeepFrom(pts[..|pts| - 1], cutoff);
      if pts[|pts| - 1].t >= cutoff then rest + [pts[|pts| - 1]] else rest
  }

  /** The filter keeps exactly the points at or after the cutoff, and loses one whenever a point is earlier. */
  lemma {:induction false} KeepFromSpec(pts: seq<Point>, cutoff: int)
    ensures forall p :: p in KeepFrom(pts, cutoff) <==> p in pts && p.t >= cutoff
    ensures (exists i :: 0 <= i < |pts| && pts[i].t < cutoff) ==> |KeepFrom(pts, cutoff)| < |pts|
    decreases |pts|
  {
    if pts != [] {
      var init := pts[..|pts| - 1];
      KeepFromSpec(init, cutoff);
      assert pts == init + [pts[|pts| - 1]];
      if exists i :: 0 <= i < |pts| && pts[i].t < cutoff {
        var i :| 0 <= i < |pts| && pts[i].t < cutoff;
        if i < |init| {
          assert init[i] == pts[i];
        }
      }
    }
  }

  /** `Math.max(1, Math.floor(n * ratio))` with the ratio in tenths. */
  function SliceOf(n: nat, tenths: nat): (r: nat)
    ensures r >= 1
  {
    if n * tenths / 10 >= 1 then n * tenths / 10 else 1
  }

  /** What the trim leaves of one non-empty series: the filter, or `points.slice(removeCount)`. */
  function ApplyCut(c: Cut, pts: seq<Point>): (r: seq<Point>)
    ensures |r| <= |pts|
  {
    match c
    case ByTime(cutoff) => KeepFrom(pts, cutoff)
    case ByCount(tenths) =>
      var k := SliceOf(|pts|, tenths);
      if k >= |pts| then [] else pts[k..]
  }

  /** The points one series loses. */
  function Loss(c: Cut, pts: seq<Point>): nat {
    |pts| - |ApplyCut(c, pts)|
  }

  /** The point-list fold of one group: each listed series with points is cut, the losses are summed. */
  function TrimSeries(data: map<nat, seq<Point>>, ss: seq<Series>, c: Cut): (map<nat, seq<Point>>, nat)
    decreases |ss|
  {
    if ss == [] then (data, 0)
    else
      var (d, n) := TrimSeries(data, ss[..|ss| - 1], c);
      var id := ss[|ss| - 1].id;
      var pts := if id in d then d[id] else [];
      if pts == [] then (d, n) else (d[id := ApplyCut(c, pts)], n + Loss(c, pts))
  }

  /** Lists of series not in the fold are untouched. */
  lemma {:induction false} TrimSeriesFrame(data: map<nat, seq<Point>>, ss: seq<Series>, c: Cut, id: nat)
    requires forall k :: 0 <= k < |ss| ==> ss[k].id != id
    ensures (id in TrimSeries(data, ss, c).0) == (id in data)
    ensures id in data ==> TrimSeries(data, ss, c).0[id] == data[id]
    decreases |ss|
  {
    if ss != [] {
      TrimSeriesFrame(data, ss[..|ss| - 1], c, id);
    }
  }

  /**
   * With distinct ids every listed series ends up as its own cut (an absent list stays absent),
   * and the total loss is at least the loss of each one.
   */
  lemma {:induction false} TrimSeriesSpec(data: map<nat, seq<Point>>, ss: seq<Series>, c: Cut, k: nat)
    requires DistinctIds(ss) && k < |ss|
    ensures var id := ss[k].id;
            var pts := if id in data then data[id] else [];
            && (id in TrimSeries(data, ss, c).0 <==> id in data)
            && (id in data ==> TrimSeries(data, ss, c).0[id] == if pts == [] then [] else ApplyCut(c, pts))
            && TrimSeries(data, ss, c).1 >= (if pts == [] then 0 else Loss(c, pts))
    decreases |ss|
  {
    var init := ss[..|ss| - 1];
    DistinctInit(ss);
    if k < |ss| - 1 {
      assert init[k] == ss[k];
      TrimSeriesSpec(data, init, c, k);
    } else {
      TrimSeriesFrame(data, init, c, ss[k].id);
    }
  }

  /** Dropping the last series keeps ids distinct, and the last id is not among the others. */
  lemma {:induction false} DistinctInit(ss: seq<Series>)
    requires DistinctIds(ss) && ss != []
    ensures DistinctIds(ss[..|ss| - 1])
    ensures forall j :: 0 <= j < |ss| - 1 ==> ss[j].id != ss[|ss| - 1].id
  {
  }

  /** The group fold of `trimOldestData`: the series fold applied to every group, losses summed. */
  function TrimGroups(gs: seq<Group>, c: Cut): (r: (seq<Group>, nat))
    ensures |r.0| == |gs|
    decreases |gs|
  {
    if gs == [] then ([], 0)
    else
      var (init, n) := TrimGroups(gs[..|gs| - 1], c);
      var g := gs[|gs| - 1];
      var (d, m) := TrimSeries(g.data, g.series, c);
      (init + [g.(data := d)], n + m)
  }

  /** Each group's point lists are its own series fold, and the total loss bounds each group's loss. */
  lemma {:induction false} TrimGroupsSpec(gs: seq<Group>, c: Cut, i: nat)
    requires i < |gs|
    ensures TrimGroups(gs, c).0[i] == gs[i].(data := TrimSeries(gs[i].data, gs[i].series, c).0)
    ensures TrimGroups(gs, c).1 >= TrimSeries(gs[i].data, gs[i].series, c).1
    decreases |gs|
  {
    var init := gs[..|gs| - 1];
    if i < |gs| - 1 {
      assert init[i] == gs[i];
      TrimGroupsSpec(init, c, i);
    }
  }

  /** The cut `trimOldestData` chooses for a global range: time mode when the span is positive. */
  function CutFor(r: Range, tenths: nat): Cut {
    if Duration(r) > 0 then ByTime(r.minTime + SliceOf(Duration(r), tenths)) else ByCount(tenths)
  }

  /**
   * `trimOldestData(ratio)` with `ratio` = `tenths / 10`: nothing without data; otherwise the cut
   * `min + max(1, ⌊d·ratio⌋)` when the span `d` is positive and a count slice otherwise, then
   * alignment with `recalc`; true when at least one point was removed.
   */
  function TrimOldest(gs: seq<Group>, tenths: nat): (seq<Group>, bool) {
    match GlobalRange(gs)
    case None => (gs, false)
    case Some(r) =>
      var trimmed := TrimGroups(gs, CutFor(r, tenths));
      (Align(trimmed.0, true), trimmed.1 > 0)
  }

  /** Groups whose series ids are distinct, as the id counter keeps them. */
  predicate WellFormed(gs: seq<Group>) {
    forall i :: 0 <= i < |gs| ==> DistinctIds(gs[i].series)
  }

  /** Every time of the global list comes from a point of some listed series of some group. */
  lemma {:induction false} GlobalTimesWitness(gs: seq<Group>, t: int)
    requires t in GlobalTimes(gs)
    ensures exists i, k :: 0 <= i < |gs| && 0 <= k < |gs[i].series| && t in Times(PointsOf(gs[i], gs[i].series[k].id))
    decreases |gs|
  {
    var init := gs[..|gs| - 1];
    var g := gs[|gs| - 1];
    if t in GlobalTimes(init) {
      GlobalTimesWitness(init, t);
      var i, k :| 0 <= i < |init| && 0 <= k < |init[i].series| && t in Times(PointsOf(init[i], init[i].series[k].id));
      assert init[i] == gs[i];
    } else {
      SeriesTimesWitness(g, g.series, t);
    }
  }

  lemma {:induction false} SeriesTimesWitness(g: Group, ss: seq<Series>, t: int)
    requires t in SeriesTimes(g, ss)
    ensures exists k :: 0 <= k < |ss| && t in Times(PointsOf(g, ss[k].id))
    decreases |ss|
  {
    var init := ss[..|ss| - 1];
    if t in SeriesTimes(g, init) {
      SeriesTimesWitness(g, init, t);
      var k :| 0 <= k < |init| && t in Times(PointsOf(g, init[k].id));
      assert init[k] == ss[k];
    }
  }

  /** A series owning a point that the cut drops loses something. */
  lemma {:induction false} CutLoses(c: Cut, pts: seq<Point>, t: int)
    requires t in Times(pts)
    requires c.ByTime? ==> t < c.cutoff
    ensures Loss(c, pts) > 0
  {
    var j :| 0 <= j < |pts| && Times(pts)[j] == t;
    if c.ByTime? {
      KeepFromSpec(pts, c.cutoff);
    }
  }

  /** A cut that drops a point of some listed series makes the group fold report a loss. */
  lemma {:induction false} TrimGroupsLoses(gs: seq<Group>, c: Cut, t: int)
    requires WellFormed(gs) && t in GlobalTimes(gs)
    requires c.ByTime? ==> t < c.cutoff
    ensures TrimGroups(gs, c).1 > 0
  {
    GlobalTimesWitness(gs, t);
    var i, k :| 0 <= i < |gs| && 0 <= k < |gs[i].series| && t in Times(PointsOf(gs[i], gs[i].series[k].id));
    CutLoses(c, PointsOf(gs[i], gs[i].series[k].id), t);
    TrimSeriesSpec(gs[i].data, gs[i].series, c, k);
    TrimGroupsSpec(gs, c, i);
  }

  /**
   * `trimOldestData` reports a removal exactly when there was data: the earliest point always
   * falls before the cut, and a count slice drops at least one point of a non-empty series.
   */
  lemma {:induction false} TrimOldestRemovesIffData(gs: seq<Group>, tenths: nat)
    requires WellFormed(gs)
    ensures TrimOldest(gs, tenths).1 <==> GlobalTimes(gs) != []
  {
    var ts := GlobalTimes(gs);
    RangeOfSpec(ts);
    if ts != [] {
      var r := RangeOf(ts).value;
      TrimGroupsLoses(gs, CutFor(r, tenths), r.minTime);
    }
  }

  /**
   * In time mode every listed series keeps exactly its points at or after the cut; in count
   * mode it loses its leading `max(1, ⌊n·ratio⌋)` points. Group ids and series lists are kept.
   */
  lemma {:induction false} TrimOldestContents(gs: seq<Group>, tenths: nat, i: nat, k: nat)
    requires WellFormed(gs) && i < |gs| && k < |gs[i].series| && GlobalTimes(gs) != []
    ensures var r := GlobalRange(gs).value;
            var id := gs[i].series[k].id;
            var after := TrimOldest(gs, tenths).0[i];
            && after.series == gs[i].series && after.id == gs[i].id
            && (id in after.data <==> id in gs[i].data)
            && (id in gs[i].data && Duration(r) > 0 ==>
                  forall p :: p in after.data[id] <==> p in gs[i].data[id] && p.t >= r.minTime + SliceOf(Duration(r), tenths))
            && (id in gs[i].data && Duration(r) == 0 ==>
                  var n := |gs[i].data[id]|;
                  after.data[id] == if n == 0 then [] else if SliceOf(n, tenths) >= n then [] else gs[i].data[id][SliceOf(n, tenths)..])
  {
    var r := GlobalRange(gs).value;
    var c := CutFor(r, tenths);
    var trimmed := TrimGroups(gs, c).0;
    AlignKeepsContent(trimmed, true);
    assert TrimOldest(gs, tenths).0 == Align(trimmed, true);
    TrimGroupsSpec(gs, c, i);
    CutContents(gs[i], c, k);
    if Duration(r) > 0 {
      var id := gs[i].series[k].id;
      if id in gs[i].data {
        KeepFromSpec(gs[i].data[id], c.cutoff);
      }
    }
  }

  lemma {:induction false} CutContents(g: Group, c: Cut, k: nat)
    requires DistinctIds(g.series) && k < |g.series|
    ensures var id := g.series[k].id;
            var d := TrimSeries(g.data, g.series, c).0;
            && (id in d <==> id in g.data)
            && (id in g.data ==> d[id] == if g.data[id] == [] then [] else ApplyCut(c, g.data[id]))
  {
    TrimSeriesSpec(g.data, g.series, c, k);
  }

  // ---------------------------------------------------------------- saving

  /** What `localStorage.setItem` does with a serialised state. */
  datatype Attempt = Stored | QuotaExceeded | OtherError

  /** How `saveState` ended and how many trims it ran. */
  datatype SaveOutcome = Saved(trims: nat) | OutOfSpace(trims: nat) | Failed(trims: nat)

  /** `k` trims in the order `saveState` runs them: ratios 0.1, 0.2, …, `k`/10. */
  function Chain<S>(s: S, k: nat, trim: (S, nat) -> (S, bool)): S
    decreases k
  {
    if k == 0 then s else trim(Chain(s, k - 1, trim), k).0
  }

  /**
   * The retry loop of `saveState` from `attempt` on, for any trim that reports whether it
   * removed something; `s` is the state the last save was refused for.
   */
  function Retry<S>(s: S, attempt: nat, storage: S -> Attempt, trim: (S, nat) -> (S, bool)): (r: (S, SaveOutcome))
    decreases 3 - attempt
  {
    if attempt >= 3 then (s, OutOfSpace(attempt))
    else
      var next := trim(s, attempt + 1);
      if !next.1 then (next.0, OutOfSpace(attempt))
      else match storage(next.0)
        case Stored => (next.0, Saved(attempt + 1))
        case OtherError => (next.0, Failed(attempt + 1))
        case QuotaExceeded => Retry(next.0, attempt + 1, storage, trim)
  }

  /** `saveState`: one save, and the bounded trim-and-retry loop when the quota is exceeded. */
  function Save(gs: seq<Group>, storage: seq<Group> -> Attempt): (seq<Group>, SaveOutcome) {
    match storage(gs)
    case Stored => (gs, Saved(0))
    case OtherError => (gs, Failed(0))
    case QuotaExceeded => Retry(gs, 0, storage, TrimOldest)
  }

  /** Whether the retry loop, started in a refused state, behaves as `saveState` promises. */
  predicate RetryOutcome<S(==)>(s: S, r: S, outcome: SaveOutcome, storage: S -> Attempt, trim: (S, nat) -> (S, bool)) {
    && outcome.trims <= 3
    && (forall j :: 0 <= j < outcome.trims ==> storage(Chain(s, j, trim)) == QuotaExceeded)
    && (outcome.Saved? ==> storage(r) == Stored)
    && (outcome.Failed? ==> storage(r) == OtherError)
    && (outcome.OutOfSpace? && outcome.trims < 3 ==>
          && storage(Chain(s, outcome.trims, trim)) == QuotaExceeded
          && !trim(Chain(s, outcome.trims, trim), outcome.trims + 1).1
          && r == Chain(s, outcome.trims + 1, trim))
    && (!outcome.OutOfSpace? || outcome.trims == 3 ==> r == Chain(s, outcome.trims, trim))
  }

  /**
   * `saveState` trims at most three times, at ratios 0.1, 0.2, 0.3 in that order; it reports a
   * save only for a state the storage accepted after every earlier one was refused for space; it
   * gives up early only when a trim removed nothing, and otherwise ends in the state after its trims.
   */
  lemma {:induction false} SaveSpec(gs: seq<Group>, storage: seq<Group> -> Attempt)
    ensures Save(gs, storage).1.trims <= 3
    ensures storage(gs) == QuotaExceeded ==> RetryOutcome(gs, Save(gs, storage).0, Save(gs, storage).1, storage, TrimOldest)
    ensures storage(gs) == Stored <==> Save(gs, storage) == (gs, Saved(0))
    ensures storage(gs) == OtherError <==> Save(gs, storage) == (gs, Failed(0))
  {
    if storage(gs) == QuotaExceeded {
      RetrySpec(gs, 0, storage, TrimOldest);
    }
  }

  lemma {:induction false} RetrySpec<S>(s: S, attempt: nat, storage: S -> Attempt, trim: (S, nat) -> (S, bool))
    requires attempt <= 3
    requires forall j :: 0 <= j <= attempt ==> storage(Chain(s, j, trim)) == QuotaExceeded
    ensures attempt <= Retry(Chain(s, attempt, trim), attempt, storage, trim).1.trims
    ensures RetryOutcome(s, Retry(Chain(s, attempt, trim), attempt, storage, trim).0,
                         Retry(Chain(s, attempt, trim), attempt, storage, trim).1, storage, trim)
    decreases 3 - attempt
  {
    if attempt < 3 {
      var next := trim(Chain(s, attempt, trim), attempt + 1);
      assert next.0 == Chain(s, attempt + 1, trim);
      if next.1 && storage(next.0) == QuotaExceeded {
        assert forall j :: 0 <= j <= attempt + 1 ==> storage(Chain(s, j, trim)) == QuotaExceeded by {
          assert forall j :: 0 <= j <= attempt ==> storage(Chain(s, j, trim)) == QuotaExceeded;
        }
        RetrySpec(s, attempt + 1, storage, trim);
      }
    }
  }
}
