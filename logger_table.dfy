/**
 * `buildGroupTable` of logger/app.js: the table an exported sheet is laid out from. It has one
 * row per distinct sample time of the group, in ascending time order. Each row holds, for
 * every series of the group, the value that series recorded at that time, or a blank. A row's
 * time is kept as its offset in milliseconds from the group's start, `max(0, t - start)`; the
 * exporter divides it by 1000 when it writes the time cell.
 */
module LoggerTable {
  import opened Wrappers
  import opened LoggerStore
  import opened LoggerRange

  /** `{ timeSec, values }`, with the time as a millisecond offset and `''` as `None`. */
  datatype Row = Row(offset: nat, values: seq<Option<real>>)

  /** `{ labels, rows }`. */
  datatype Table = Table(labels: seq<string>, rows: seq<Row>)

  predicate StrictlyIncreasing(s: seq<int>) {
    forall i, j :: 0 <= i < j < |s| ==> s[i] < s[j]
  }

  // ------------------------------------------------------------------ order of rows

  /** The distinct elements of `ts` in the order they first occur: the key order of a `Map`. */
  function Dedup(ts: seq<int>): (r: seq<int>)
    ensures forall t :: t in r <==> t in ts
    decreases |ts|
  {
    if ts == [] then []
    else
      var init := ts[..|ts| - 1];
      assert ts == init + [ts[|ts| - 1]];
      if ts[|ts| - 1] in Dedup(init) then Dedup(init) else Dedup(init) + [ts[|ts| - 1]]
  }

  lemma {:induction false} DedupSnoc(ts: seq<int>, t: int)
    ensures Dedup(ts + [t]) == if t in ts then Dedup(ts) else Dedup(ts) + [t]
  {
    assert (ts + [t])[..|ts|] == ts;
  }

  /** Places `x` in an ascending list that has no repeated element. */
  function Insert(xs: seq<int>, x: int): (r: seq<int>)
    requires StrictlyIncreasing(xs)
    ensures StrictlyIncreasing(r)
    ensures forall y :: y in r <==> y in xs || y == x
    decreases |xs|
  {
    if xs == [] then [x]
    else if x < xs[0] then [x] + xs
    else if x == xs[0] then xs
    else
      var rest := Insert(xs[1..], x);
      assert forall y :: y in rest ==> xs[0] < y;
      ConsIncreasing(xs[0], rest);
      assert xs == [xs[0]] + xs[1..];
      [xs[0]] + rest
  }

  /** A strictly increasing list stays so behind an element smaller than all of it. */
  lemma {:induction false} ConsIncreasing(x: int, rest: seq<int>)
    requires StrictlyIncreasing(rest)
    requires forall y :: y in rest ==> x < y
    ensures StrictlyIncreasing([x] + rest)
  {
    var r := [x] + rest;
    forall i, j | 0 <= i < j < |r|
      ensures r[i] < r[j]
    {
      assert r[j] == rest[j - 1] && rest[j - 1] in rest;
      if i > 0 {
        assert r[i] == rest[i - 1];
      }
    }
  }

  /** `.sort((a, b) => a[0] - b[0])` on the entries of a map keyed by the elements of `ts`. */
  function SortDistinct(ts: seq<int>): (r: seq<int>)
    ensures StrictlyIncreasing(r)
    ensures forall y :: y in r <==> y in ts
    decreases |ts|
  {
    if ts == [] then []
    else
      var init := ts[..|ts| - 1];
      assert ts == init + [ts[|ts| - 1]];
      Insert(SortDistinct(init), ts[|ts| - 1])
  }

  // ------------------------------------------------------------------ contents of rows

  /** The value a row at time `t` holds for one series: the last of its points at `t`, if any. */
  function ValueAt(pts: seq<Point>, t: int): (r: Option<real>)
    ensures r.None? <==> forall k :: 0 <= k < |pts| ==> pts[k].t != t
    ensures r.Some? ==> Point(t, r.value) in pts
    decreases |pts|
  {
    if pts == [] then None
    else if pts[|pts| - 1].t == t then Some(pts[|pts| - 1].v)
    else
      var init := pts[..|pts| - 1];
      assert forall k :: 0 <= k < |init| ==> init[k] == pts[k];
      ValueAt(init, t)
  }

  /** A later point at the same time overwrites an earlier one. */
  lemma {:induction false} ValueAtLast(pts: seq<Point>, k: nat)
    requires k < |pts|
    requires forall j :: k < j < |pts| ==> pts[j].t != pts[k].t
    ensures ValueAt(pts, pts[k].t) == Some(pts[k].v)
    decreases |pts|
  {
    if k < |pts| - 1 {
      var init := pts[..|pts| - 1];
      assert init[k] == pts[k];
      ValueAtLast(init, k);
    }
  }

  function Blank(n: nat): (r: seq<Option<real>>)
    ensures |r| == n && forall j :: 0 <= j < n ==> r[j] == None
  {
    seq(n, j => None)
  }

  /** The row a group's table has at time `t`: one entry per series, in series order. */
  function Values(g: Group, t: int): (r: seq<Option<real>>)
    ensures |r| == |g.series|
    ensures forall j :: 0 <= j < |g.series| ==> r[j] == ValueAt(PointsOf(g, g.series[j].id), t)
  {
    seq(|g.series|, j requires 0 <= j < |g.series| => ValueAt(PointsOf(g, g.series[j].id), t))
  }

  function Labels(g: Group): (r: seq<string>)
    ensures |r| == |g.series| && forall j :: 0 <= j < |g.series| ==> r[j] == g.series[j].labelText
  {
    seq(|g.series|, j requires 0 <= j < |g.series| => g.series[j].labelText)
  }

  function MinOf(ts: seq<int>): Option<int> {
    match RangeOf(ts)
    case None => None
    case Some(r) => Some(r.minTime)
  }

  /** `group.startTime` when it is a number, else the earliest sample time, else 0. */
  function StartOf(g: Group): int {
    if g.startTime.Some? then g.startTime.value
    else match MinOf(AllTimes(g))
      case None => 0
      case Some(m) => m
  }

  /** `Math.max(0, time - startTime)`, in milliseconds. */
  function Offset(t: int, start: int): nat {
    if t > start then t - start else 0
  }

  /** The times that get a row: every sample time of the group once, ascending. */
  function RowTimes(g: Group): (r: seq<int>)
    ensures StrictlyIncreasing(r)
    ensures forall t :: t in r <==> t in AllTimes(g)
  {
    SortDistinct(Dedup(AllTimes(g)))
  }

  /** The table `buildGroupTable(group)` returns. */
  function TableOf(g: Group): Table {
    var times := RowTimes(g);
    Table(Labels(g), seq(|times|, i requires 0 <= i < |times| => Row(Offset(times[i], StartOf(g)), Values(g, times[i]))))
  }

  /**
   * The layout `buildGroupTable` promises: as many labels as series; a row per distinct sample
   * time, in ascending order; every row as wide as the series list; a cell filled exactly when
   * that series has a point at the row's time, with the value of the last such point.
   */
  lemma {:induction false} TableShape(g: Group)
    ensures TableOf(g).labels == Labels(g)
    ensures |TableOf(g).rows| == |RowTimes(g)|
    ensures forall j, k :: 0 <= j < |g.series| && 0 <= k < |PointsOf(g, g.series[j].id)| ==>
              PointsOf(g, g.series[j].id)[k].t in RowTimes(g)
    ensures forall i, i' :: 0 <= i < i' < |TableOf(g).rows| ==> TableOf(g).rows[i].offset <= TableOf(g).rows[i'].offset
    ensures forall i :: 0 <= i < |TableOf(g).rows| ==>
              && |TableOf(g).rows[i].values| == |g.series|
              && TableOf(g).rows[i].offset == Offset(RowTimes(g)[i], StartOf(g))
    ensures forall i, j :: 0 <= i < |TableOf(g).rows| && 0 <= j < |g.series| ==>
              (TableOf(g).rows[i].values[j].None? <==>
                 forall k :: 0 <= k < |PointsOf(g, g.series[j].id)| ==> PointsOf(g, g.series[j].id)[k].t != RowTimes(g)[i])
  {
    forall j, k | 0 <= j < |g.series| && 0 <= k < |PointsOf(g, g.series[j].id)|
      ensures PointsOf(g, g.series[j].id)[k].t in RowTimes(g)
    {
      SeriesTimesHas(g, g.series, j, k);
    }
  }

  /**
   * Without an explicit `startTime` the group starts at its earliest sample: the first row has
   * offset 0 and the offsets strictly increase, so distinct times stay distinct rows.
   */
  lemma {:induction false} TableOffsetsFromEarliest(g: Group)
    requires g.startTime.None?
    ensures forall i :: 0 <= i < |TableOf(g).rows| ==> TableOf(g).rows[i].offset + StartOf(g) == RowTimes(g)[i]
    ensures forall i, i' :: 0 <= i < i' < |TableOf(g).rows| ==> TableOf(g).rows[i].offset < TableOf(g).rows[i'].offset
    ensures |TableOf(g).rows| > 0 ==> TableOf(g).rows[0].offset == 0
  {
    var ts := AllTimes(g);
    RangeOfSpec(ts);
    var times := RowTimes(g);
    if ts != [] {
      var m := RangeOf(ts).value.minTime;
      assert StartOf(g) == m;
      forall i | 0 <= i < |times|
        ensures m <= times[i]
      {
        assert times[i] in ts;
      }
      assert m in times;
    }
  }

  // ------------------------------------------------------------------ the method

  /** The row for time `t` part way through the collection, at point `pre` of series `si`. */
  function Partial(g: Group, si: nat, pre: seq<Point>, t: int): (r: seq<Option<real>>)
    ensures |r| == |g.series|
  {
    seq(|g.series|, j requires 0 <= j < |g.series| =>
      if j < si then ValueAt(PointsOf(g, g.series[j].id), t) else if j == si then ValueAt(pre, t) else None)
  }

  ghost predicate Collected(g: Group, si: nat, pre: seq<Point>, seen: seq<int>,
                            rows: map<int, seq<Option<real>>>, order: seq<int>, minTime: Option<int>)
  {
    && order == Dedup(seen)
    && (forall t :: t in rows <==> t in seen)
    && (forall t :: t in rows ==> rows[t] == Partial(g, si, pre, t))
    && minTime == MinOf(seen)
  }

  /**
   * `buildGroupTable(group)`: the labels, then every point of every series entered into a map
   * from time to row, the earliest time tracked alongside, then the map's entries sorted by time.
   */
  method BuildGroupTable(g: Group) returns (table: Table)
    ensures table == TableOf(g)
  {
    var labels := Labels(g);
    var rows: map<int, seq<Option<real>>> := map[];
    var order: seq<int> := [];
    var minTime: Option<int> := None;
    var si := 0;
    while si < |g.series|
      invariant si <= |g.series|
      invariant Collected(g, si, [], SeriesTimes(g, g.series[..si]), rows, order, minTime)
    {
      var pts := PointsOf(g, g.series[si].id);
      rows, order, minTime := CollectSeries(g, si, pts, rows, order, minTime);
      NextSeries(g, si, rows);
      si := si + 1;
    }
    assert g.series[..si] == g.series;
    var start := if g.startTime.Some? then g.startTime.value else if minTime.Some? then minTime.value else 0;
    var times := SortDistinct(order);
    EndOfCollection(g, rows, order);
    table := Table(labels, seq(|times|, i requires 0 <= i < |times| => Row(Offset(times[i], start), rows[times[i]])));
  }

  /** The inner `points.forEach` of one series. */
  method CollectSeries(g: Group, si: nat, pts: seq<Point>, rows0: map<int, seq<Option<real>>>, order0: seq<int>, min0: Option<int>)
    returns (rows: map<int, seq<Option<real>>>, order: seq<int>, minTime: Option<int>)
    requires si < |g.series| && pts == PointsOf(g, g.series[si].id)
    requires Collected(g, si, [], SeriesTimes(g, g.series[..si]), rows0, order0, min0)
    ensures Collected(g, si, pts, SeriesTimes(g, g.series[..si]) + Times(pts), rows, order, minTime)
  {
    rows, order, minTime := rows0, order0, min0;
    ghost var before := SeriesTimes(g, g.series[..si]);
    ghost var pre: seq<Point> := [];
    ghost var seen := before;
    assert before + Times([]) == before;
    var p := 0;
    while p < |pts|
      invariant p <= |pts| && pre == pts[..p] && seen == before + Times(pre)
      invariant Collected(g, si, pre, seen, rows, order, minTime)
    {
      var pt := pts[p];
      ghost var rows', order', min' := rows, order, minTime;
      minTime := Some(if minTime.None? || pt.t < minTime.value then pt.t else minTime.value);
      if pt.t !in rows {
        rows := rows[pt.t := Blank(|g.series|)];
        order := order + [pt.t];
      }
      rows := rows[pt.t := rows[pt.t][si := Some(pt.v)]];
      CollectStep(g, si, pre, pt, seen, rows', order', min', rows, order, minTime);
      AdvancePrefix(pts, p, before);
      pre, seen := pre + [pt], seen + [pt.t];
      p := p + 1;
    }
    assert pts[..p] == pts;
  }

  lemma {:induction false} AdvancePrefix(pts: seq<Point>, p: nat, before: seq<int>)
    requires p < |pts|
    ensures pts[..p + 1] == pts[..p] + [pts[p]]
    ensures before + Times(pts[..p + 1]) == before + Times(pts[..p]) + [pts[p].t]
  {
    assert pts[..p + 1] == pts[..p] + [pts[p]];
    TimesSnoc(pts[..p], pts[p]);
  }

  // ------------------------------------------------------------------ proof of the method

  lemma {:induction false} TimesSnoc(pts: seq<Point>, pt: Point)
    ensures Times(pts + [pt]) == Times(pts) + [pt.t]
  {
  }

  /** Every time of every listed series is among the series' times. */
  lemma {:induction false} SeriesTimesHas(g: Group, ss: seq<Series>, j: nat, k: nat)
    requires j < |ss| && k < |PointsOf(g, ss[j].id)|
    ensures PointsOf(g, ss[j].id)[k].t in SeriesTimes(g, ss)
    decreases |ss|
  {
    var init := ss[..|ss| - 1];
    if j < |ss| - 1 {
      assert init[j] == ss[j];
      SeriesTimesHas(g, init, j, k);
    } else {
      assert Times(PointsOf(g, ss[j].id))[k] == PointsOf(g, ss[j].id)[k].t;
    }
  }

  /** A time not seen yet has a blank row. */
  lemma {:induction false} PartialBlank(g: Group, si: nat, pre: seq<Point>, t: int)
    requires si <= |g.series|
    requires t !in SeriesTimes(g, g.series[..si]) + Times(pre)
    ensures Partial(g, si, pre, t) == Blank(|g.series|)
  {
    forall j | 0 <= j < |g.series|
      ensures Partial(g, si, pre, t)[j] == None
    {
      if j < si {
        forall k | 0 <= k < |PointsOf(g, g.series[j].id)|
          ensures PointsOf(g, g.series[j].id)[k].t != t
        {
          assert g.series[..si][j] == g.series[j];
          SeriesTimesHas(g, g.series[..si], j, k);
        }
        assert Partial(g, si, pre, t)[j] == ValueAt(PointsOf(g, g.series[j].id), t);
      } else if j == si {
        forall k | 0 <= k < |pre|
          ensures pre[k].t != t
        {
          assert Times(pre)[k] == pre[k].t && Times(pre)[k] in Times(pre);
        }
        assert Partial(g, si, pre, t)[j] == ValueAt(pre, t);
      }
    }
  }

  lemma {:induction false} ValueAtSnoc(pre: seq<Point>, pt: Point, t: int)
    ensures ValueAt(pre + [pt], t) == if pt.t == t then Some(pt.v) else ValueAt(pre, t)
  {
    assert (pre + [pt])[..|pre|] == pre;
  }

  lemma {:induction false} PartialStep(g: Group, si: nat, pre: seq<Point>, pt: Point, t: int)
    requires si < |g.series|
    ensures Partial(g, si, pre + [pt], t) == if t == pt.t then Partial(g, si, pre, t)[si := Some(pt.v)] else Partial(g, si, pre, t)
  {
    ValueAtSnoc(pre, pt, t);
    if t == pt.t {
      assert forall j :: 0 <= j < |g.series| ==> Partial(g, si, pre + [pt], t)[j] == Partial(g, si, pre, t)[si := Some(pt.v)][j];
    } else {
      assert forall j :: 0 <= j < |g.series| ==> Partial(g, si, pre + [pt], t)[j] == Partial(g, si, pre, t)[j];
    }
  }

  /** One point entered into the map keeps the collection invariant. */
  lemma {:induction false} CollectStep(g: Group, si: nat, pre: seq<Point>, pt: Point, seen: seq<int>,
                                       rows: map<int, seq<Option<real>>>, order: seq<int>, minTime: Option<int>,
                                       rows1: map<int, seq<Option<real>>>, order1: seq<int>, min1: Option<int>)
    requires si < |g.series| && seen == SeriesTimes(g, g.series[..si]) + Times(pre)
    requires Collected(g, si, pre, seen, rows, order, minTime)
    requires min1 == Some(if minTime.None? || pt.t < minTime.value then pt.t else minTime.value)
    requires order1 == if pt.t !in rows then order + [pt.t] else order
    requires rows1 == rows[pt.t := (if pt.t in rows then rows[pt.t] else Blank(|g.series|))[si := Some(pt.v)]]
    ensures Collected(g, si, pre + [pt], seen + [pt.t], rows1, order1, min1)
  {
    CollectKeys(seen, pt.t, rows, order, minTime, rows1, order1, min1);
    CollectRows(g, si, pre, pt, seen, rows, rows1);
  }

  lemma {:induction false} CollectKeys(seen: seq<int>, t: int, rows: map<int, seq<Option<real>>>, order: seq<int>, minTime: Option<int>,
                                       rows1: map<int, seq<Option<real>>>, order1: seq<int>, min1: Option<int>)
    requires order == Dedup(seen) && minTime == MinOf(seen)
    requires forall x :: x in rows <==> x in seen
    requires min1 == Some(if minTime.None? || t < minTime.value then t else minTime.value)
    requires order1 == if t !in rows then order + [t] else order
    requires rows1.Keys == rows.Keys + {t}
    ensures order1 == Dedup(seen + [t]) && min1 == MinOf(seen + [t])
    ensures forall x :: x in rows1 <==> x in seen + [t]
  {
    DedupSnoc(seen, t);
    RangeOfSnoc(seen, t);
  }

  lemma {:induction false} CollectRows(g: Group, si: nat, pre: seq<Point>, pt: Point, seen: seq<int>,
                                       rows: map<int, seq<Option<real>>>, rows1: map<int, seq<Option<real>>>)
    requires si < |g.series| && seen == SeriesTimes(g, g.series[..si]) + Times(pre)
    requires forall t :: t in rows <==> t in seen
    requires forall t :: t in rows ==> rows[t] == Partial(g, si, pre, t)
    requires pt.t in rows ==> |rows[pt.t]| == |g.series|
    requires rows1 == rows[pt.t := (if pt.t in rows then rows[pt.t] else Blank(|g.series|))[si := Some(pt.v)]]
    ensures forall t :: t in rows1 ==> rows1[t] == Partial(g, si, pre + [pt], t)
  {
    if pt.t !in rows {
      PartialBlank(g, si, pre, pt.t);
    }
    forall t | t in rows1
      ensures rows1[t] == Partial(g, si, pre + [pt], t)
    {
      PartialStep(g, si, pre, pt, t);
    }
  }

  /** After the last point of a series the next series starts with the same rows. */
  lemma {:induction false} NextSeries(g: Group, si: nat, rows: map<int, seq<Option<real>>>)
    requires si < |g.series|
    ensures SeriesTimes(g, g.series[..si]) + Times(PointsOf(g, g.series[si].id)) == SeriesTimes(g, g.series[..si + 1])
    ensures forall t :: Partial(g, si, PointsOf(g, g.series[si].id), t) == Partial(g, si + 1, [], t)
  {
    var x := g.series[..si + 1];
    assert x[..si] == g.series[..si] && x[si] == g.series[si];
    forall t
      ensures Partial(g, si, PointsOf(g, g.series[si].id), t) == Partial(g, si + 1, [], t)
    {
      assert ValueAt([], t) == None;
      assert forall j :: 0 <= j < |g.series| ==> Partial(g, si, PointsOf(g, g.series[si].id), t)[j] == Partial(g, si + 1, [], t)[j];
    }
  }

  lemma {:induction false} EndOfCollection(g: Group, rows: map<int, seq<Option<real>>>, order: seq<int>)
    ensures forall t :: Partial(g, |g.series|, [], t) == Values(g, t)
  {
  }
}
