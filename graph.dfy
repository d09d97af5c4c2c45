/**
 * The line graph of logger/graph.js, without its drawing: the series list, the point lists
 * keyed by series id (a `Map`, so its keys keep their insertion order), the start time, the
 * nearest-point search hover uses and the data summary that scales the axes.
 */
module Graph {
  import opened Wrappers

  /** A sample: time in milliseconds and value. */
  datatype Point = Point(t: real, v: real)

  /** `{ id, label, color }`, copied by `setSeries`. */
  datatype SeriesInfo = SeriesInfo(id: string, labelText: string, color: string)

  function Abs(x: real): real {
    if x < 0.0 then -x else x
  }

  // ---------------------------------------------------------------------------------
  // Nearest point

  predicate SortedByTime(points: seq<Point>) {
    forall i, j :: 0 <= i < j < |points| ==> points[i].t <= points[j].t
  }

  /** The index the binary search stops at: the first point at or after `target`, else the last. */
  function LowerBound(points: seq<Point>, target: real, from: nat): (idx: nat)
    requires from < |points|
    ensures from <= idx < |points|
    ensures forall j :: from <= j < idx ==> points[j].t < target
    ensures idx == |points| - 1 || points[idx].t >= target
    decreases |points| - from
  {
    if from == |points| - 1 || points[from].t >= target then from else LowerBound(points, target, from + 1)
  }

  /** The point chosen from the stop index and the one before it: the stop index wins ties. */
  function NearestIndex(points: seq<Point>, target: real): (k: nat)
    requires points != []
    ensures k < |points|
  {
    var idx := LowerBound(points, target, 0);
    var prev := if idx == 0 then 0 else idx - 1;
    if Abs(points[idx].t - target) <= Abs(points[prev].t - target) then idx else prev
  }

  /**
   * `Graph._findNearestPoint(points, targetTime)`: `null` for no points; otherwise the point
   * at `NearestIndex`, which on a time-sorted list is the search's stop index or the one before.
   */
  method FindNearestPoint(points: seq<Point>, target: real) returns (r: Option<Point>)
    ensures points == [] <==> r.None?
    ensures r.Some? ==> SortedByTime(points) ==> r.value == points[NearestIndex(points, target)]
    ensures r.Some? ==> r.value in points
  {
    if |points| == 0 {
      return None;
    }
    var lo, hi := 0, |points| - 1;
    while lo < hi
      invariant 0 <= lo <= hi < |points|
      invariant SortedByTime(points) ==> forall j :: 0 <= j < lo ==> points[j].t < target
      invariant SortedByTime(points) ==> hi == |points| - 1 || points[hi].t >= target
      decreases hi - lo
    {
      var mid := (lo + hi) / 2;
      if points[mid].t < target {
        lo := mid + 1;
      } else {
        hi := mid;
      }
    }
    var idx := lo;
    var prev := if idx == 0 then 0 else idx - 1;
    if SortedByTime(points) {
      LowerBoundIsFirst(points, target, idx);
    }
    if Abs(points[idx].t - target) <= Abs(points[prev].t - target) {
      r := Some(points[idx]);
    } else {
      r := Some(points[prev]);
    }
  }

  /** An index with every earlier point before `target`, and itself at or after it or last, is the stop index. */
  lemma {:induction false} LowerBoundIsFirst(points: seq<Point>, target: real, idx: nat)
    requires idx < |points|
    requires forall j :: 0 <= j < idx ==> points[j].t < target
    requires idx == |points| - 1 || points[idx].t >= target
    ensures LowerBound(points, target, 0) == idx
  {
    LowerBoundFrom(points, target, 0, idx);
  }

  lemma {:induction false} LowerBoundFrom(points: seq<Point>, target: real, from: nat, idx: nat)
    requires from <= idx < |points|
    requires forall j :: from <= j < idx ==> points[j].t < target
    requires idx == |points| - 1 || points[idx].t >= target
    ensures LowerBound(points, target, from) == idx
    decreases idx - from
  {
    if from < idx {
      LowerBoundFrom(points, target, from + 1, idx);
    }
  }

  /** On a time-sorted list the point chosen is as close to `target` as any point. */
  lemma {:induction false} NearestIsClosest(points: seq<Point>, target: real, j: nat)
    requires points != [] && SortedByTime(points) && j < |points|
    ensures Abs(points[NearestIndex(points, target)].t - target) <= Abs(points[j].t - target)
  {
    var idx := LowerBound(points, target, 0);
    var prev := if idx == 0 then 0 else idx - 1;
    if j < prev {
      assert points[j].t <= points[prev].t < target;
    } else if j > idx {
      assert points[idx].t >= target || idx == |points| - 1;
      assert points[idx].t <= points[j].t;
    }
  }

  /** When the stop index and the one before it are equally close, the later one is chosen. */
  lemma {:induction false} NearestTieGoesLater(points: seq<Point>, target: real)
    requires points != []
    ensures var idx := LowerBound(points, target, 0);
      idx > 0 && Abs(points[idx].t - target) == Abs(points[idx - 1].t - target) ==> NearestIndex(points, target) == idx
  {
  }

  // ---------------------------------------------------------------------------------
  // The summary of the data

  /** `_summarizeData()`: the value and time ranges over every point, or zeros without points. */
  datatype Summary = Summary(hasData: bool, minValue: real, maxValue: real, minTime: real, maxTime: real)

  function Min(a: real, b: real): real {
    if a <= b then a else b
  }

  function Max(a: real, b: real): real {
    if a >= b then a else b
  }

  /** One point folded into the running ranges; the first point starts them. */
  function Step(acc: Summary, p: Point): Summary {
    if acc.hasData
    then Summary(true, Min(acc.minValue, p.v), Max(acc.maxValue, p.v), Min(acc.minTime, p.t), Max(acc.maxTime, p.t))
    else Summary(true, p.v, p.v, p.t, p.t)
  }

  /** The ranges after folding in the points one by one. */
  function Fold(acc: Summary, points: seq<Point>): Summary {
    if points == [] then acc else Step(Fold(acc, points[..|points| - 1]), points[|points| - 1])
  }

  /** Every point of every list, in map order. */
  function AllPoints(keys: seq<string>, data: map<string, seq<Point>>): seq<Point>
    requires forall i :: 0 <= i < |keys| ==> keys[i] in data
  {
    if keys == [] then [] else AllPoints(keys[..|keys| - 1], data) + data[keys[|keys| - 1]]
  }

  const NoData := Summary(false, 0.0, 0.0, 0.0, 0.0)

  /** A summary that bounds every point it has seen and is attained by some of them. */
  predicate Summarizes(s: Summary, points: seq<Point>) {
    (s.hasData <==> points != [])
    && (!s.hasData ==> s == NoData)
    && (forall i :: 0 <= i < |points| ==>
          s.minValue <= points[i].v <= s.maxValue && s.minTime <= points[i].t <= s.maxTime)
    && (s.hasData ==>
          (exists i :: 0 <= i < |points| && points[i].v == s.minValue)
          && (exists i :: 0 <= i < |points| && points[i].v == s.maxValue)
          && (exists i :: 0 <= i < |points| && points[i].t == s.minTime)
          && (exists i :: 0 <= i < |points| && points[i].t == s.maxTime))
  }

  /**
   * The summary of the points is their value and time ranges: `hasData` exactly when there is
   * a point, each bound attained by a point, and all zeros otherwise.
   */
  lemma {:induction false} FoldSummarizes(points: seq<Point>)
    ensures Summarizes(Fold(NoData, points), points)
  {
    if points != [] {
      var n := |points|;
      FoldSummarizes(points[..n - 1]);
      StepSummarizes(points[..n - 1], Fold(NoData, points[..n - 1]), points[n - 1]);
      assert points[..n - 1] + [points[n - 1]] == points;
    }
  }

  lemma {:induction false} StepSummarizes(done: seq<Point>, acc: Summary, p: Point)
    requires Summarizes(acc, done)
    ensures Summarizes(Step(acc, p), done + [p])
  {
    var next := Step(acc, p);
    var all := done + [p];
    assert all[|done|] == p;
    assert forall i :: 0 <= i < |done| ==> all[i] == done[i];
    if acc.hasData {
      var iv :| 0 <= iv < |done| && done[iv].v == acc.minValue;
      var jv :| 0 <= jv < |done| && done[jv].v == acc.maxValue;
      var it :| 0 <= it < |done| && done[it].t == acc.minTime;
      var jt :| 0 <= jt < |done| && done[jt].t == acc.maxTime;
      assert all[if p.v <= acc.minValue then |done| else iv].v == next.minValue;
      assert all[if p.v >= acc.maxValue then |done| else jv].v == next.maxValue;
      assert all[if p.t <= acc.minTime then |done| else it].t == next.minTime;
      assert all[if p.t >= acc.maxTime then |done| else jt].t == next.maxTime;
    } else {
      assert done == [];
    }
  }

  /** The inner loop's next round folds in one more point of the current list. */
  lemma {:induction false} FoldNext(before: seq<Point>, points: seq<Point>, j: nat)
    requires j < |points|
    ensures Fold(NoData, before + points[..j + 1]) == Step(Fold(NoData, before + points[..j]), points[j])
  {
    var all := before + points[..j + 1];
    assert all[..|all| - 1] == before + points[..j];
    assert all[|all| - 1] == points[j];
  }

  /** The outer loop's next round appends the next key's list. */
  lemma {:induction false} AllPointsNext(keys: seq<string>, data: map<string, seq<Point>>, i: nat)
    requires forall k :: 0 <= k < |keys| ==> keys[k] in data
    requires i < |keys|
    ensures AllPoints(keys[..i + 1], data) == AllPoints(keys[..i], data) + data[keys[i]]
  {
    assert keys[..i + 1][..i] == keys[..i];
  }

  // ---------------------------------------------------------------------------------
  // The point lists

  /** The key order lists every key of `data` exactly once. */
  predicate ValidOrder(keys: seq<string>, data: map<string, seq<Point>>) {
    (forall i, j :: 0 <= i < j < |keys| ==> keys[i] != keys[j])
    && (forall i :: 0 <= i < |keys| ==> keys[i] in data)
    && (forall id :: id in data ==> id in keys)
  }

  function IdsOf(series: seq<SeriesInfo>): set<string> {
    set j | 0 <= j < |series| :: series[j].id
  }

  /** The key order and the lists after `setSeries(s)`: a new empty list for each unseen id. */
  function Ensured(keys: seq<string>, data: map<string, seq<Point>>, s: seq<SeriesInfo>): (seq<string>, map<string, seq<Point>>) {
    if s == [] then (keys, data)
    else
      var prev := Ensured(keys, data, s[..|s| - 1]);
      var id := s[|s| - 1].id;
      if id in prev.1 then prev else (prev.0 + [id], prev.1[id := []])
  }

  /**
   * `k` and `d` are `keys` and `data` with empty lists added for `ids`: the order stays valid,
   * grows only at the end, and every existing list is as it was.
   */
  predicate Extends(keys: seq<string>, data: map<string, seq<Point>>, k: seq<string>, d: map<string, seq<Point>>, ids: set<string>) {
    ValidOrder(k, d)
    && d.Keys == data.Keys + ids
    && (forall id :: id in data ==> d[id] == data[id])
    && (forall id :: id in d && id !in data ==> d[id] == [])
    && |keys| <= |k| && k[..|keys|] == keys
  }

  /** `setSeries` adds an empty list for each new id at the end of the order and keeps the rest. */
  lemma {:induction false} EnsuredFacts(keys: seq<string>, data: map<string, seq<Point>>, s: seq<SeriesInfo>)
    requires ValidOrder(keys, data)
    ensures Extends(keys, data, Ensured(keys, data, s).0, Ensured(keys, data, s).1, IdsOf(s))
  {
    if s == [] {
      assert keys[..|keys|] == keys;
    } else {
      var n := |s|;
      EnsuredFacts(keys, data, s[..n - 1]);
      assert IdsOf(s) == IdsOf(s[..n - 1]) + {s[n - 1].id} by {
        assert forall j :: 0 <= j < n - 1 ==> s[..n - 1][j] == s[j];
      }
      var prev := Ensured(keys, data, s[..n - 1]);
      EnsureOne(keys, data, prev.0, prev.1, IdsOf(s[..n - 1]), s[n - 1].id);
    }
  }

  lemma {:induction false} EnsureOne(keys: seq<string>, data: map<string, seq<Point>>, k: seq<string>, d: map<string, seq<Point>>,
                                     ids: set<string>, id: string)
    requires Extends(keys, data, k, d, ids)
    ensures id in d ==> Extends(keys, data, k, d, ids + {id})
    ensures id !in d ==> Extends(keys, data, k + [id], d[id := []], ids + {id})
  {
    if id !in d {
      var k' := k + [id];
      assert k'[..|keys|] == k[..|keys|];
      assert forall i :: 0 <= i < |k| ==> k'[i] == k[i];
    }
  }

  lemma {:induction false} EnsuredNext(keys: seq<string>, data: map<string, seq<Point>>, s: seq<SeriesInfo>, i: nat)
    requires i < |s|
    ensures var prev := Ensured(keys, data, s[..i]);
      Ensured(keys, data, s[..i + 1])
        == if s[i].id in prev.1 then prev else (prev.0 + [s[i].id], prev.1[s[i].id := []])
  {
    assert s[..i + 1][..i] == s[..i];
  }

  // ---------------------------------------------------------------------------------
  // The graph object

  class Graph {
    var series: seq<SeriesInfo>
    /** The keys of `data` in insertion order, as a `Map` iterates them. */
    var keys: seq<string>
    var data: map<string, seq<Point>>
    var startTime: Option<real>

    predicate Valid()
      reads this
    {
      ValidOrder(keys, data)
    }

    /**
     * `new Graph(canvas, opts)`: an empty `data` map, then `setSeries(opts.series || [])`. The
     * start time is `opts.startTime || null`, so a start time of 0, being falsy, is not kept.
     */
    constructor (series0: seq<SeriesInfo>, startTime0: Option<real>)
      ensures Valid()
      ensures series == series0
      ensures startTime0 == Some(0.0) ==> startTime.None?
      ensures startTime0 != Some(0.0) ==> startTime == startTime0
      ensures data.Keys == IdsOf(series0) && forall id :: id in data ==> data[id] == []
    {
      series := series0;
      startTime := if startTime0 == Some(0.0) then None else startTime0;
      keys := [];
      data := map[];
      new;
      SetSeries(series0);
      EnsuredFacts([], map[], series0);
    }

    /**
     * `setSeries(series)`: the copied list becomes the series, and each id without a list gets
     * an empty one at the end of the key order; existing lists are kept as they are.
     */
    method SetSeries(s: seq<SeriesInfo>)
      modifies this
      ensures series == s && startTime == old(startTime)
      ensures keys == Ensured(old(keys), old(data), s).0 && data == Ensured(old(keys), old(data), s).1
    {
      series := s;
      for i := 0 to |s|
        invariant series == s && startTime == old(startTime)
        invariant keys == Ensured(old(keys), old(data), s[..i]).0 && data == Ensured(old(keys), old(data), s[..i]).1
      {
        EnsuredNext(old(keys), old(data), s, i);
        if s[i].id !in data {
          data := data[s[i].id := []];
          keys := keys + [s[i].id];
        }
      }
      assert s[..|s|] == s;
    }

    /** `setStartTime(ts)`: only a finite number is taken; `None` stands for every other value. */
    method SetStartTime(ts: Option<real>)
      modifies this
      ensures startTime == (if ts.Some? then ts else old(startTime))
      ensures series == old(series) && keys == old(keys) && data == old(data)
    {
      if ts.Some? {
        startTime := ts;
      }
    }

    /**
     * `addPoint(seriesId, point)`: the point goes at the end of that series' list, created
     * empty (and last in key order) when missing; every other list stays as it was.
     */
    method AddPoint(seriesId: string, p: Point)
      requires Valid()
      modifies this
      ensures Valid()
      ensures data == old(data)[seriesId := (if seriesId in old(data) then old(data[seriesId]) else []) + [p]]
      ensures keys == (if seriesId in old(data) then old(keys) else old(keys) + [seriesId])
      ensures series == old(series) && startTime == old(startTime)
    {
      if seriesId !in data {
        data := data[seriesId := []];
        keys := keys + [seriesId];
      }
      data := data[seriesId := data[seriesId] + [p]];
    }

    /** `_summarizeData()`: one pass over every list in key order, and every point in each. */
    method SummarizeData() returns (s: Summary)
      requires Valid()
      ensures s == Fold(NoData, AllPoints(keys, data))
    {
      s := NoData;
      for i := 0 to |keys|
        invariant s == Fold(NoData, AllPoints(keys[..i], data))
      {
        var points := data[keys[i]];
        ghost var before := AllPoints(keys[..i], data);
        assert before + points[..0] == before;
        for j := 0 to |points|
          invariant s == Fold(NoData, before + points[..j])
        {
          FoldNext(before, points, j);
          s := Step(s, points[j]);
        }
        AllPointsNext(keys, data, i);
        assert points[..|points|] == points;
      }
      assert keys[..|keys|] == keys;
    }
  }
}
