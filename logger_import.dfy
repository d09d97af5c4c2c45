/**
 * `buildImportPayload` and `makeUniqueGroupName` of logger/app.js: the parsed tables of an
 * imported file become a saved-state payload. Every label is made unique across the whole
 * import (by its normalised key), every group name is made unique, groups and series are
 * numbered in order with palette colours, and each table's times are shifted so that its
 * latest row lands on the import clock.
 */
module LoggerImport {
  import opened Wrappers
  import opened Seqs
  import opened Text
  import opened LoggerLabels
  import LoggerRows
  import LoggerStore

  // ---------------------------------------------------------------------------------
  // The retry search shared by the label loop and `makeUniqueGroupName`

  /**
   * Whether a candidate may be taken: its key is not in `keys` and, for labels
   * (`blankTaken`), its key is not empty.
   */
  predicate IsFreeIn(keys: set<string>, name: string, blankTaken: bool) {
    var key := NormalizeLabel(name);
    !(blankTaken && key == "") && key !in keys
  }

  lemma {:induction false} SuffixedKeyNonEmpty(base: string, k: nat)
    ensures NormalizeLabel(Suffixed(base, k)) != ""
  {
    NormalizeSuffixed(base, k);
  }

  /** Among the first `|keys| + 2` candidates one is free: both retry loops terminate. */
  lemma {:induction false} SomeFreeIn(keys: set<string>, base: string, blankTaken: bool)
    ensures exists k :: 1 <= k <= |keys| + 2 && IsFreeIn(keys, Candidate(base, k), blankTaken)
  {
    if forall k :: 1 <= k <= |keys| + 2 ==> !IsFreeIn(keys, Candidate(base, k), blankTaken) {
      var m := |keys| + 1;
      var f := (n: nat) => NormalizeLabel(Suffixed(base, n));
      forall n | 1 <= n <= m
        ensures f(n) in keys
      {
        assert !IsFreeIn(keys, Candidate(base, n + 1), blankTaken);
        assert Candidate(base, n + 1) == Suffixed(base, n);
        SuffixedKeyNonEmpty(base, n);
      }
      forall i, j | 1 <= i < j <= m
        ensures f(i) != f(j)
      {
        if f(i) == f(j) {
          SuffixedKeysInjective(base, i, j);
        }
      }
      ImageUpToWithin(f, m, keys);
      ImageUpToCount(f, m);
      SubsetCard(ImageUpTo(f, m), keys);
      assert false;
    }
  }

  /** The first free round at or below a bound, when some round up to it is free. */
  function FirstFreeIn(keys: set<string>, base: string, blankTaken: bool, bound: nat): (n: nat)
    requires exists k :: 1 <= k <= bound && IsFreeIn(keys, Candidate(base, k), blankTaken)
    ensures 1 <= n <= bound && IsFreeIn(keys, Candidate(base, n), blankTaken)
    ensures forall j :: 1 <= j < n ==> !IsFreeIn(keys, Candidate(base, j), blankTaken)
    decreases bound
  {
    if exists k :: 1 <= k < bound && IsFreeIn(keys, Candidate(base, k), blankTaken) then
      FirstFreeIn(keys, base, blankTaken, bound - 1)
    else
      bound
  }

  /** The round a retry loop stops at. */
  function LeastFreeIn(keys: set<string>, base: string, blankTaken: bool): (n: nat)
    ensures 1 <= n <= |keys| + 2 && IsFreeIn(keys, Candidate(base, n), blankTaken)
    ensures forall j :: 1 <= j < n ==> !IsFreeIn(keys, Candidate(base, j), blankTaken)
  {
    SomeFreeIn(keys, base, blankTaken);
    FirstFreeIn(keys, base, blankTaken, |keys| + 2)
  }

  /** The candidate a retry loop returns: `base`, else the first free `base_k`. */
  function FreshName(keys: set<string>, base: string, blankTaken: bool): (r: string)
    ensures IsFreeIn(keys, r, blankTaken)
  {
    Candidate(base, LeastFreeIn(keys, base, blankTaken))
  }

  /** The name picked is the base when it is free, and otherwise the first free `base_k`. */
  lemma {:induction false} FreshNameIsFirstFree(keys: set<string>, base: string, blankTaken: bool)
    ensures IsFreeIn(keys, base, blankTaken) ==> FreshName(keys, base, blankTaken) == base
    ensures !IsFreeIn(keys, base, blankTaken) ==>
      exists k :: k >= 1 && FreshName(keys, base, blankTaken) == Suffixed(base, k)
        && forall j :: 1 <= j < k ==> !IsFreeIn(keys, Suffixed(base, j), blankTaken)
  {
    var n := LeastFreeIn(keys, base, blankTaken);
    if n > 1 {
      assert !IsFreeIn(keys, Candidate(base, 1), blankTaken);
      forall j | 1 <= j < n - 1
        ensures !IsFreeIn(keys, Suffixed(base, j), blankTaken)
      {
        assert Candidate(base, j + 1) == Suffixed(base, j);
      }
      assert FreshName(keys, base, blankTaken) == Suffixed(base, n - 1);
    }
  }

  /**
   * The retry loop: `candidate` starts at the base and becomes `${base}_${index}` while its key
   * is taken.
   */
  method SearchFree(keys: set<string>, base: string, blankTaken: bool) returns (candidate: string)
    ensures candidate == FreshName(keys, base, blankTaken)
  {
    ghost var bound := LeastFreeIn(keys, base, blankTaken);
    candidate := base;
    var index: nat := 0;
    var normalized := NormalizeLabel(candidate);
    while (blankTaken && normalized == "") || normalized in keys
      invariant index + 1 <= bound
      invariant candidate == Candidate(base, index + 1) && normalized == NormalizeLabel(candidate)
      invariant forall j :: 1 <= j <= index ==> !IsFreeIn(keys, Candidate(base, j), blankTaken)
      decreases bound - index
    {
      assert !IsFreeIn(keys, Candidate(base, index + 1), blankTaken);
      NextRound(keys, base, blankTaken, index, bound);
      index := index + 1;
      candidate := Suffixed(base, index);
      normalized := NormalizeLabel(candidate);
    }
    FirstFreeIsFresh(keys, base, blankTaken, index + 1);
  }

  /** A taken candidate is not the one at the free bound, and the next round tries `base_{index+1}`. */
  lemma {:induction false} NextRound(keys: set<string>, base: string, blankTaken: bool, index: nat, bound: nat)
    requires index + 1 <= bound && IsFreeIn(keys, Candidate(base, bound), blankTaken)
    requires !IsFreeIn(keys, Candidate(base, index + 1), blankTaken)
    ensures index + 1 < bound && Candidate(base, index + 2) == Suffixed(base, index + 1)
  {
  }

  /** A free round with every earlier round taken is the round of `FreshName`. */
  lemma {:induction false} FirstFreeIsFresh(keys: set<string>, base: string, blankTaken: bool, n: nat)
    requires 1 <= n && IsFreeIn(keys, Candidate(base, n), blankTaken)
    requires forall j :: 1 <= j < n ==> !IsFreeIn(keys, Candidate(base, j), blankTaken)
    ensures Candidate(base, n) == FreshName(keys, base, blankTaken)
  {
    var m := LeastFreeIn(keys, base, blankTaken);
  }

  // ---------------------------------------------------------------------------------
  // makeUniqueGroupName

  /** `sanitizeText(baseName) || '그룹'`. */
  function SafeGroupBase(baseName: string): (r: string)
    ensures r != "" && IsClean(r)
  {
    var s := SanitizeText(baseName);
    if s != "" then s
    else
      assert IsClean("그룹");
      "그룹"
  }

  /**
   * `makeUniqueGroupName(baseName, nameSet)`: the sanitised base (or `그룹`), suffixed
   * `_1`, `_2`, ... until its key is not in `nameSet`; the key is then added.
   */
  method MakeUniqueGroupName(baseName: string, nameSet: set<string>) returns (name: string, nameSet': set<string>)
    ensures name == FreshName(nameSet, SafeGroupBase(baseName), false)
    ensures NormalizeLabel(name) !in nameSet && nameSet' == nameSet + {NormalizeLabel(name)}
  {
    var safeBase := SanitizeText(baseName);
    if safeBase == "" {
      safeBase := "그룹";
    }
    name := SearchFree(nameSet, safeBase, false);
    nameSet' := nameSet + {NormalizeLabel(name)};
  }

  // ---------------------------------------------------------------------------------
  // Keys of a list of names

  /** The keys of a list of names. */
  function KeysOf(names: seq<string>): (r: set<string>)
    ensures forall i :: 0 <= i < |names| ==> NormalizeLabel(names[i]) in r
  {
    if names == [] then {} else KeysOf(names[..|names| - 1]) + {NormalizeLabel(names[|names| - 1])}
  }

  lemma {:induction false} KeysOfMembers(names: seq<string>, x: string)
    requires x in KeysOf(names)
    ensures exists i :: 0 <= i < |names| && NormalizeLabel(names[i]) == x
  {
    var n := |names|;
    if x != NormalizeLabel(names[n - 1]) {
      KeysOfMembers(names[..n - 1], x);
      var i :| 0 <= i < n - 1 && NormalizeLabel(names[..n - 1][i]) == x;
      assert names[..n - 1][i] == names[i];
    }
  }

  lemma {:induction false} KeysOfAppend(a: seq<string>, b: seq<string>)
    ensures KeysOf(a + b) == KeysOf(a) + KeysOf(b)
    decreases |b|
  {
    if b == [] {
      assert a + b == a;
    } else {
      var n := |b|;
      assert (a + b)[..|a + b| - 1] == a + b[..n - 1];
      KeysOfAppend(a, b[..n - 1]);
    }
  }

  /** No two names share a key. */
  predicate KeysDistinct(names: seq<string>) {
    forall i, j :: 0 <= i < j < |names| ==> NormalizeLabel(names[i]) != NormalizeLabel(names[j])
  }

  /** Two key-distinct lists with no key in common concatenate to a key-distinct list. */
  lemma {:induction false} KeysDistinctAppend(a: seq<string>, b: seq<string>)
    requires KeysDistinct(a) && KeysDistinct(b)
    requires forall j :: 0 <= j < |b| ==> NormalizeLabel(b[j]) !in KeysOf(a)
    ensures KeysDistinct(a + b)
  {
    forall i, j | 0 <= i < j < |a + b|
      ensures NormalizeLabel((a + b)[i]) != NormalizeLabel((a + b)[j])
    {
      if j >= |a| && i < |a| {
        assert (a + b)[j] == b[j - |a|];
        assert NormalizeLabel(a[i]) in KeysOf(a);
      } else if j >= |a| {
        assert (a + b)[j] == b[j - |a|] && (a + b)[i] == b[i - |a|];
      }
    }
  }

  // ---------------------------------------------------------------------------------
  // The labels of one table

  /** `table.labels.map(sanitizeText).filter(Boolean)`. */
  function BaseLabels(labels: seq<string>): (r: seq<string>)
    ensures |r| <= |labels|
    ensures forall i :: 0 <= i < |r| ==> r[i] != ""
  {
    if labels == [] then []
    else
      var s := SanitizeText(labels[|labels| - 1]);
      BaseLabels(labels[..|labels| - 1]) + (if s == "" then [] else [s])
  }

  /** Every base label is in sanitized form. */
  lemma {:induction false} BaseLabelsClean(labels: seq<string>)
    ensures forall i :: 0 <= i < |BaseLabels(labels)| ==> IsClean(BaseLabels(labels)[i])
  {
    if labels != [] {
      BaseLabelsClean(labels[..|labels| - 1]);
    }
  }

  /** Labels that are already clean and non-empty pass through unchanged. */
  lemma {:induction false} BaseLabelsOfClean(labels: seq<string>)
    requires forall i :: 0 <= i < |labels| ==> labels[i] != "" && IsClean(labels[i])
    ensures BaseLabels(labels) == labels
  {
    if labels != [] {
      var init, last := labels[..|labels| - 1], labels[|labels| - 1];
      SnocSplit(labels);
      BaseLabelsOfClean(init);
      SanitizeTextOfClean(last);
      BaseLabelsSnocFixed(init, last);
    }
  }

  /** A label fixed by sanitizing is appended as it is. */
  lemma BaseLabelsSnocFixed(init: seq<string>, last: string)
    requires last != "" && SanitizeText(last) == last
    ensures BaseLabels(init + [last]) == BaseLabels(init) + [last]
  {
    assert (init + [last])[..|init|] == init;
  }

  /** The labels the label loop returns: each the first free candidate after the earlier ones. */
  function UniqueLabels(keys: set<string>, labels: seq<string>): (r: seq<string>)
    ensures |r| == |labels|
  {
    if labels == [] then []
    else
      var done := UniqueLabels(keys, labels[..|labels| - 1]);
      done + [FreshName(keys + KeysOf(done), labels[|labels| - 1], true)]
  }

  /**
   * The unique labels have non-empty, pairwise distinct keys, none already in `keys`, and label
   * `i` is label `i` of the input or one of its `_k` variants.
   */
  lemma {:induction false} UniqueLabelsFresh(keys: set<string>, labels: seq<string>)
    ensures var r := UniqueLabels(keys, labels);
      KeysDistinct(r)
      && (forall i :: 0 <= i < |r| ==> NormalizeLabel(r[i]) != "" && NormalizeLabel(r[i]) !in keys)
      && (forall i :: 0 <= i < |r| ==> r[i] == labels[i] || exists k :: k >= 1 && r[i] == Suffixed(labels[i], k))
  {
    UniqueLabelsKeys(keys, labels);
    UniqueLabelsShape(keys, labels);
  }

  lemma {:induction false} UniqueLabelsKeys(keys: set<string>, labels: seq<string>)
    ensures var r := UniqueLabels(keys, labels);
      KeysDistinct(r) && forall i :: 0 <= i < |r| ==> NormalizeLabel(r[i]) != "" && NormalizeLabel(r[i]) !in keys
  {
    if labels != [] {
      var n := |labels|;
      var done := UniqueLabels(keys, labels[..n - 1]);
      UniqueLabelsKeys(keys, labels[..n - 1]);
      var c := FreshName(keys + KeysOf(done), labels[n - 1], true);
      KeysDistinctAppend(done, [c]);
      var r := done + [c];
      assert forall i :: 0 <= i < n - 1 ==> r[i] == done[i];
    }
  }

  lemma {:induction false} UniqueLabelsShape(keys: set<string>, labels: seq<string>)
    ensures var r := UniqueLabels(keys, labels);
      forall i :: 0 <= i < |r| ==> r[i] == labels[i] || exists k :: k >= 1 && r[i] == Suffixed(labels[i], k)
  {
    if labels != [] {
      var n := |labels|;
      var done := UniqueLabels(keys, labels[..n - 1]);
      UniqueLabelsShape(keys, labels[..n - 1]);
      var c := FreshName(keys + KeysOf(done), labels[n - 1], true);
      FreshNameIsFirstFree(keys + KeysOf(done), labels[n - 1], true);
      var r := done + [c];
      forall i | 0 <= i < n
        ensures r[i] == labels[i] || exists k :: k >= 1 && r[i] == Suffixed(labels[i], k)
      {
        if i < n - 1 {
          assert r[i] == done[i] && labels[..n - 1][i] == labels[i];
        }
      }
    }
  }

  /**
   * The label loop of `buildImportPayload`: each base label gets the first free candidate and
   * its key joins the import-wide `labelSet`.
   */
  method DedupLabels(labelSet: set<string>, base: seq<string>) returns (labels: seq<string>, labelSet': set<string>)
    ensures labels == UniqueLabels(labelSet, base)
    ensures labelSet' == labelSet + KeysOf(labels)
  {
    labels := [];
    labelSet' := labelSet;
    for i := 0 to |base|
      invariant labels == UniqueLabels(labelSet, base[..i])
      invariant labelSet' == labelSet + KeysOf(labels)
    {
      var candidate := SearchFree(labelSet', base[i], true);
      UniqueLabelsSnoc(labelSet, base, i, labels, labelSet', candidate);
      labels := labels + [candidate];
      labelSet' := labelSet' + {NormalizeLabel(candidate)};
    }
    assert base[..|base|] == base;
  }

  /** One round of the label loop extends the unique labels by the next fresh candidate. */
  lemma {:induction false} UniqueLabelsSnoc(keys: set<string>, base: seq<string>, i: nat, done: seq<string>, seen: set<string>, c: string)
    requires i < |base| && done == UniqueLabels(keys, base[..i])
    requires seen == keys + KeysOf(done) && c == FreshName(seen, base[i], true)
    ensures UniqueLabels(keys, base[..i + 1]) == done + [c]
    ensures seen + {NormalizeLabel(c)} == keys + KeysOf(done + [c])
  {
    assert base[..i + 1][..i] == base[..i];
    assert (done + [c])[..|done|] == done;
  }

  // ---------------------------------------------------------------------------------
  // Numbering

  /** `series-${n}`. */
  function SeriesId(n: nat): string {
    "series-" + NatToString(n)
  }

  /** `group-${n}`. */
  function GroupId(n: nat): string {
    "group-" + NatToString(n)
  }

  lemma {:induction false} SeriesIdInjective(a: nat, b: nat)
    requires SeriesId(a) == SeriesId(b)
    ensures a == b
  {
    assert NatToString(a) == SeriesId(a)[7..];
    assert NatToString(b) == SeriesId(b)[7..];
    NatToStringInjective(a, b);
  }

  lemma {:induction false} GroupIdInjective(a: nat, b: nat)
    requires GroupId(a) == GroupId(b)
    ensures a == b
  {
    assert NatToString(a) == GroupId(a)[6..];
    assert NatToString(b) == GroupId(b)[6..];
    NatToStringInjective(a, b);
  }

  /** `COLOR_PALETTE[(n - 1) % COLOR_PALETTE.length]` for series number `n`. */
  function ColorOf(n: nat): string
    requires n >= 1
  {
    LoggerStore.Palette[(n - 1) % |LoggerStore.Palette|]
  }

  datatype ImportSeries = ImportSeries(id: string, labelText: string, color: string)

  /** The series of one group: numbers `first + 1`, `first + 2`, ... each with its palette colour. */
  function SeriesFor(labels: seq<string>, first: nat): (r: seq<ImportSeries>)
    ensures |r| == |labels|
  {
    seq(|labels|, j requires 0 <= j < |labels| => ImportSeries(SeriesId(first + j + 1), labels[j], ColorOf(first + j + 1)))
  }

  /** `labels.map(...)` with `++seriesIndex`: the series and the counter after them. */
  method MakeSeries(labels: seq<string>, seriesIndex: nat) returns (series: seq<ImportSeries>, seriesIndex': nat)
    ensures series == SeriesFor(labels, seriesIndex)
    ensures seriesIndex' == seriesIndex + |labels|
  {
    series := [];
    seriesIndex' := seriesIndex;
    for j := 0 to |labels|
      invariant seriesIndex' == seriesIndex + j
      invariant series == SeriesFor(labels[..j], seriesIndex)
    {
      seriesIndex' := seriesIndex' + 1;
      var id := SeriesId(seriesIndex');
      var color := LoggerStore.Palette[(seriesIndex' - 1) % |LoggerStore.Palette|];
      SeriesForSnoc(labels, seriesIndex, j);
      series := series + [ImportSeries(id, labels[j], color)];
    }
    assert labels[..|labels|] == labels;
  }

  lemma {:induction false} SeriesForSnoc(labels: seq<string>, first: nat, j: nat)
    requires j < |labels|
    ensures SeriesFor(labels[..j + 1], first)
      == SeriesFor(labels[..j], first) + [ImportSeries(SeriesId(first + j + 1), labels[j], ColorOf(first + j + 1))]
  {
    var a, b := SeriesFor(labels[..j + 1], first), SeriesFor(labels[..j], first);
    assert forall i :: 0 <= i < j ==> a[i] == b[i];
  }

  /** The series of one group have pairwise distinct ids. */
  lemma {:induction false} SeriesIdsDistinct(labels: seq<string>, first: nat)
    ensures var s := SeriesFor(labels, first);
      forall i, j :: 0 <= i < j < |s| ==> s[i].id != s[j].id
  {
    var s := SeriesFor(labels, first);
    forall i, j | 0 <= i < j < |s|
      ensures s[i].id != s[j].id
    {
      if s[i].id == s[j].id {
        SeriesIdInjective(first + i + 1, first + j + 1);
      }
    }
  }

  // ---------------------------------------------------------------------------------
  // Times and points

  function Max(a: real, b: real): real {
    if a >= b then a else b
  }

  /** `rows.reduce((acc, row) => Math.max(acc, row.timeSec), 0)`. */
  function MaxSec(rows: seq<LoggerRows.ParsedRow>): (r: real)
    ensures r >= 0.0
    ensures forall k :: 0 <= k < |rows| ==> rows[k].timeSec <= r
    ensures r == 0.0 || exists k :: 0 <= k < |rows| && rows[k].timeSec == r
  {
    if rows == [] then 0.0
    else
      var n := |rows|;
      var m := MaxSec(rows[..n - 1]);
      assert forall k :: 0 <= k < n - 1 ==> rows[..n - 1][k] == rows[k];
      Max(m, rows[n - 1].timeSec)
  }

  /** The `reduce` loop. */
  method MaxSecOf(rows: seq<LoggerRows.ParsedRow>) returns (acc: real)
    ensures acc == MaxSec(rows)
  {
    acc := 0.0;
    for k := 0 to |rows|
      invariant acc == MaxSec(rows[..k])
    {
      assert rows[..k + 1][..k] == rows[..k];
      acc := Max(acc, rows[k].timeSec);
    }
    assert rows[..|rows|] == rows;
  }

  datatype ImportPoint = ImportPoint(t: real, v: real)

  /** `now - maxSec * 1000`: the base the latest row is stamped from. */
  function BaseTime(now: real, maxSec: real): real {
    now - maxSec * 1000.0
  }

  /** The time stamp of a row: `baseTime + timeSec * 1000`. */
  function Stamp(baseTime: real, timeSec: real): real {
    baseTime + timeSec * 1000.0
  }

  /** The points of series `c`, in row order: one per row whose value `c` is a number. */
  function Points(rows: seq<LoggerRows.ParsedRow>, c: nat, baseTime: real): (r: seq<ImportPoint>)
    ensures |r| <= |rows|
  {
    if rows == [] then []
    else
      var row := rows[|rows| - 1];
      Points(rows[..|rows| - 1], c, baseTime)
        + (if c < |row.values| && row.values[c].Some? then [ImportPoint(Stamp(baseTime, row.timeSec), row.values[c].value)] else [])
  }

  /** Every point is stamped within `[lo, hi]`. */
  predicate StampedWithin(p: seq<ImportPoint>, lo: real, hi: real) {
    forall i :: 0 <= i < |p| ==> lo <= p[i].t <= hi
  }

  /** Rows whose times lie in `[lo, hi]` give points stamped in `[baseTime + lo*1000, baseTime + hi*1000]`. */
  lemma {:induction false} PointsWithin(rows: seq<LoggerRows.ParsedRow>, c: nat, baseTime: real, lo: real, hi: real)
    requires forall k :: 0 <= k < |rows| ==> lo <= rows[k].timeSec <= hi
    ensures StampedWithin(Points(rows, c, baseTime), Stamp(baseTime, lo), Stamp(baseTime, hi))
  {
    if rows != [] {
      var n := |rows|;
      assert forall k :: 0 <= k < n - 1 ==> rows[..n - 1][k] == rows[k];
      PointsWithin(rows[..n - 1], c, baseTime, lo, hi);
      var x := rows[n - 1].timeSec;
      assert lo * 1000.0 <= x * 1000.0 <= hi * 1000.0;
    }
  }

  /** The group's `data` object: a list of points per series id. */
  type SeriesData = map<string, seq<ImportPoint>>

  function IdsOf(series: seq<ImportSeries>): set<string> {
    set j | 0 <= j < |series| :: series[j].id
  }

  /** `series.forEach(item => data[item.id] = [])`. */
  function EmptyData(series: seq<ImportSeries>): (r: SeriesData)
    ensures r.Keys == IdsOf(series)
    ensures forall id :: id in r ==> r[id] == []
  {
    if series == [] then map[]
    else
      var n := |series|;
      var d := EmptyData(series[..n - 1]);
      assert IdsOf(series) == IdsOf(series[..n - 1]) + {series[n - 1].id} by {
        assert forall j :: 0 <= j < n - 1 ==> series[..n - 1][j] == series[j];
      }
      d[series[n - 1].id := []]
  }

  /** Every number-valued column of every row has a series to go to. */
  predicate Fits(rows: seq<LoggerRows.ParsedRow>, width: nat) {
    forall k, j :: 0 <= k < |rows| && 0 <= j < |rows[k].values| && rows[k].values[j].Some? ==> j < width
  }

  /** `row.values.forEach(...)`: each number is pushed to its series, stamped `t`. */
  function PushValues(data: SeriesData, series: seq<ImportSeries>, values: seq<Option<real>>, t: real): (r: SeriesData)
    requires IdsOf(series) <= data.Keys
    requires forall j :: 0 <= j < |values| && values[j].Some? ==> j < |series|
    ensures r.Keys == data.Keys
  {
    if values == [] then data
    else
      var n := |values|;
      var d := PushValues(data, series, values[..n - 1], t);
      if values[n - 1].None? then d
      else
        assert series[n - 1].id in IdsOf(series);
        d[series[n - 1].id := d[series[n - 1].id] + [ImportPoint(t, values[n - 1].value)]]
  }

  /** The `data` object after `table.rows.forEach(...)`. */
  function FillData(series: seq<ImportSeries>, rows: seq<LoggerRows.ParsedRow>, baseTime: real): (r: SeriesData)
    requires Fits(rows, |series|)
    ensures r.Keys == IdsOf(series)
  {
    if rows == [] then EmptyData(series)
    else
      var n := |rows|;
      assert Fits(rows[..n - 1], |series|) by {
        assert forall k :: 0 <= k < n - 1 ==> rows[..n - 1][k] == rows[k];
      }
      var d := FillData(series, rows[..n - 1], baseTime);
      assert n - 1 < |rows|;
      PushValues(d, series, rows[n - 1].values, Stamp(baseTime, rows[n - 1].timeSec))
  }

  /** Pushing one row's values appends at most one point to series `c`. */
  lemma {:induction false} PushValuesAt(data: SeriesData, series: seq<ImportSeries>, values: seq<Option<real>>, t: real, c: nat)
    requires IdsOf(series) <= data.Keys
    requires forall j :: 0 <= j < |values| && values[j].Some? ==> j < |series|
    requires forall i, j :: 0 <= i < j < |series| ==> series[i].id != series[j].id
    requires c < |series|
    ensures series[c].id in data
    ensures PushValues(data, series, values, t)[series[c].id]
      == data[series[c].id] + (if c < |values| && values[c].Some? then [ImportPoint(t, values[c].value)] else [])
  {
    assert series[c].id in IdsOf(series);
    if values != [] {
      var n := |values|;
      assert forall j :: 0 <= j < n - 1 ==> values[..n - 1][j] == values[j];
      PushValuesAt(data, series, values[..n - 1], t, c);
    }
  }

  /** The `data` entry of series `c` holds exactly the points of column `c`, in row order. */
  lemma {:induction false} FillDataAt(series: seq<ImportSeries>, rows: seq<LoggerRows.ParsedRow>, baseTime: real, c: nat)
    requires Fits(rows, |series|)
    requires forall i, j :: 0 <= i < j < |series| ==> series[i].id != series[j].id
    requires c < |series|
    ensures series[c].id in FillData(series, rows, baseTime)
    ensures FillData(series, rows, baseTime)[series[c].id] == Points(rows, c, baseTime)
  {
    assert series[c].id in IdsOf(series);
    if rows != [] {
      var n := |rows|;
      assert Fits(rows[..n - 1], |series|) by {
        assert forall k :: 0 <= k < n - 1 ==> rows[..n - 1][k] == rows[k];
      }
      FillDataAt(series, rows[..n - 1], baseTime, c);
      var d := FillData(series, rows[..n - 1], baseTime);
      PushValuesAt(d, series, rows[n - 1].values, Stamp(baseTime, rows[n - 1].timeSec), c);
    }
  }

  /** The `data` object: an empty list per series, then every row's numbers pushed in order. */
  method FillGroupData(series: seq<ImportSeries>, rows: seq<LoggerRows.ParsedRow>, baseTime: real) returns (data: SeriesData)
    requires Fits(rows, |series|)
    ensures data == FillData(series, rows, baseTime)
  {
    data := map[];
    for j := 0 to |series|
      invariant data == EmptyData(series[..j])
    {
      assert series[..j + 1][..j] == series[..j];
      data := data[series[j].id := []];
    }
    assert series[..|series|] == series;
    for k := 0 to |rows|
      invariant data == FillData(series, rows[..k], baseTime)
    {
      FillDataSnoc(series, rows, baseTime, k);
      var row := rows[k];
      data := PushRow(data, series, row.values, Stamp(baseTime, row.timeSec));
    }
    assert rows[..|rows|] == rows;
  }

  /** A prefix of the rows fits, and one more row extends the filled data by that row's pushes. */
  lemma {:induction false} FillDataSnoc(series: seq<ImportSeries>, rows: seq<LoggerRows.ParsedRow>, baseTime: real, k: nat)
    requires Fits(rows, |series|) && k < |rows|
    ensures Fits(rows[..k], |series|) && Fits(rows[..k + 1], |series|)
    ensures IdsOf(series) <= FillData(series, rows[..k], baseTime).Keys
    ensures forall j :: 0 <= j < |rows[k].values| && rows[k].values[j].Some? ==> j < |series|
    ensures FillData(series, rows[..k + 1], baseTime)
      == PushValues(FillData(series, rows[..k], baseTime), series, rows[k].values, Stamp(baseTime, rows[k].timeSec))
  {
    assert forall i :: 0 <= i <= k ==> rows[..k + 1][i] == rows[i];
    assert forall i :: 0 <= i < k ==> rows[..k][i] == rows[i];
    assert rows[..k + 1][..k] == rows[..k];
  }

  /** `row.values.forEach(...)`: every number is pushed onto its series' list. */
  method PushRow(data: SeriesData, series: seq<ImportSeries>, values: seq<Option<real>>, t: real) returns (data': SeriesData)
    requires IdsOf(series) <= data.Keys
    requires forall j :: 0 <= j < |values| && values[j].Some? ==> j < |series|
    ensures data' == PushValues(data, series, values, t)
  {
    data' := data;
    for j := 0 to |values|
      invariant data' == PushValues(data, series, values[..j], t)
    {
      assert values[..j + 1][..j] == values[..j];
      var value := values[j];
      if value.Some? {
        assert series[j].id in IdsOf(series);
        data' := data'[series[j].id := data'[series[j].id] + [ImportPoint(t, value.value)]];
      }
    }
    assert values[..|values|] == values;
  }

  // ---------------------------------------------------------------------------------
  // Groups and the payload

  datatype ImportGroup = ImportGroup(id: string, name: string, series: seq<ImportSeries>, data: SeriesData)

  datatype ImportPayload = ImportPayload(groups: seq<ImportGroup>, lastActiveGroupId: Option<string>)

  /** The state the `forEach` over the tables threads through: the two key sets and the counters. */
  datatype Counters = Counters(labelSet: set<string>, nameSet: set<string>, groupIndex: nat, seriesIndex: nat)

  datatype GroupStep = GroupStep(group: ImportGroup, after: Counters)

  /** A table `buildImportPayload` can take: every number has a label to belong to. */
  predicate Importable(table: LoggerRows.ParsedTable) {
    Fits(table.rows, |BaseLabels(table.labels)|)
  }

  /** `sanitizeText(table.name) || `그룹 ${groupIndex}``. */
  function GroupBaseName(name: string, groupIndex: nat): string {
    var s := SanitizeText(name);
    if s != "" then s else "그룹 " + NatToString(groupIndex)
  }

  /** The labels of a table's series: its base labels made unique against the import so far. */
  function GroupLabels(labelSet: set<string>, table: LoggerRows.ParsedTable): seq<string> {
    UniqueLabels(labelSet, BaseLabels(table.labels))
  }

  /** The series of a table's group, numbered after the `seriesIndex` series so far. */
  function GroupSeries(labelSet: set<string>, seriesIndex: nat, table: LoggerRows.ParsedTable): (r: seq<ImportSeries>)
    ensures |r| == |BaseLabels(table.labels)|
  {
    SeriesFor(GroupLabels(labelSet, table), seriesIndex)
  }

  /** The `data` object of a table's group. */
  function GroupData(labelSet: set<string>, seriesIndex: nat, table: LoggerRows.ParsedTable, now: real): SeriesData
    requires Importable(table)
  {
    FillData(GroupSeries(labelSet, seriesIndex, table), table.rows, BaseTime(now, MaxSec(table.rows)))
  }

  /** The name of group number `groupIndex`: `makeUniqueGroupName(baseName, nameSet)`. */
  function GroupName(nameSet: set<string>, groupIndex: nat, table: LoggerRows.ParsedTable): string {
    FreshName(nameSet, SafeGroupBase(GroupBaseName(table.name, groupIndex)), false)
  }

  /** One round of the `forEach` over the tables, after `groupIndex` groups and `seriesIndex` series. */
  function GroupFor(labelSet: set<string>, nameSet: set<string>, groupIndex: nat, seriesIndex: nat,
                    table: LoggerRows.ParsedTable, now: real): (r: GroupStep)
    requires Importable(table)
  {
    var labels := GroupLabels(labelSet, table);
    var name := GroupName(nameSet, groupIndex + 1, table);
    GroupStep(
      ImportGroup(GroupId(groupIndex + 1), name, GroupSeries(labelSet, seriesIndex, table), GroupData(labelSet, seriesIndex, table, now)),
      Counters(labelSet + KeysOf(labels), nameSet + {NormalizeLabel(name)}, groupIndex + 1, seriesIndex + |labels|))
  }

  /** One round, from the state the rounds before it left. */
  function GroupOf(st: Counters, table: LoggerRows.ParsedTable, now: real): (r: GroupStep)
    requires Importable(table)
  {
    GroupFor(st.labelSet, st.nameSet, st.groupIndex, st.seriesIndex, table, now)
  }

  predicate AllImportable(tables: seq<LoggerRows.ParsedTable>) {
    forall i :: 0 <= i < |tables| ==> Importable(tables[i])
  }

  /** The groups built from the tables, with the state after them. */
  function GroupsOf(tables: seq<LoggerRows.ParsedTable>, now: real): (r: (seq<ImportGroup>, Counters))
    requires AllImportable(tables)
    ensures |r.0| == |tables|
  {
    if tables == [] then ([], Counters({}, {}, 0, 0))
    else
      var n := |tables|;
      assert AllImportable(tables[..n - 1]) by {
        assert forall i :: 0 <= i < n - 1 ==> tables[..n - 1][i] == tables[i];
      }
      var prev := GroupsOf(tables[..n - 1], now);
      var step := GroupOf(prev.1, tables[n - 1], now);
      (prev.0 + [step.group], step.after)
  }

  /** The payload around the groups: the last group is the active one. */
  function PayloadFrom(groups: seq<ImportGroup>): ImportPayload {
    ImportPayload(groups, if groups == [] then None else Some(groups[|groups| - 1].id))
  }

  /** The payload `buildImportPayload(tables)` returns, the clock reading `now`. */
  function PayloadOf(tables: seq<LoggerRows.ParsedTable>, now: real): ImportPayload
    requires AllImportable(tables)
  {
    PayloadFrom(GroupsOf(tables, now).0)
  }

  /**
   * `buildImportPayload(tables)`, with `Date.now()` passed in as `now`; the label set, the
   * name set and the two counters the source keeps in local variables travel as `st`.
   */
  method BuildImportPayload(tables: seq<LoggerRows.ParsedTable>, now: real) returns (payload: ImportPayload)
    requires AllImportable(tables)
    ensures payload == PayloadOf(tables, now)
  {
    var groups: seq<ImportGroup> := [];
    var st := Counters({}, {}, 0, 0);
    for i := 0 to |tables|
      invariant groups == GroupsOf(tables[..i], now).0
      invariant st == GroupsOf(tables[..i], now).1
    {
      GroupsOfSnoc(tables, i, now);
      var group;
      group, st := ImportTable(st.labelSet, st.nameSet, st.groupIndex, st.seriesIndex, tables[i], now);
      groups := groups + [group];
    }
    assert tables[..|tables|] == tables;
    payload := PayloadFrom(groups);
  }

  /** The body of the `forEach` over the tables: one table becomes one group. */
  method ImportTable(labelSet: set<string>, nameSet: set<string>, groupIndex: nat, seriesIndex: nat,
                     table: LoggerRows.ParsedTable, now: real) returns (group: ImportGroup, st': Counters)
    requires Importable(table)
    ensures group == GroupFor(labelSet, nameSet, groupIndex, seriesIndex, table, now).group
    ensures st' == GroupFor(labelSet, nameSet, groupIndex, seriesIndex, table, now).after
  {
    var baseLabels := BaseLabels(table.labels);
    var labels, labelSet' := DedupLabels(labelSet, baseLabels);
    var groupIndex' := groupIndex + 1;
    var groupId := GroupId(groupIndex');
    var series, seriesIndex' := MakeSeries(labels, seriesIndex);
    var maxSec := MaxSecOf(table.rows);
    var baseTime := BaseTime(now, maxSec);
    var data := FillGroupData(series, table.rows, baseTime);
    var baseName := GroupBaseName(table.name, groupIndex');
    var name, nameSet' := MakeUniqueGroupName(baseName, nameSet);
    GroupOfParts(labelSet, nameSet, groupIndex, seriesIndex, table, now, series, maxSec, data, name);
    CountersOfParts(labelSet, nameSet, groupIndex, seriesIndex, table, now, labels, name);
    group := ImportGroup(groupId, name, series, data);
    st' := Counters(labelSet', nameSet', groupIndex', seriesIndex');
  }

  /** One more table extends the groups by its own round. */
  lemma {:induction false} GroupsOfSnoc(tables: seq<LoggerRows.ParsedTable>, i: nat, now: real)
    requires AllImportable(tables) && i < |tables|
    ensures AllImportable(tables[..i]) && AllImportable(tables[..i + 1]) && Importable(tables[i])
    ensures GroupsOf(tables[..i + 1], now).0
      == GroupsOf(tables[..i], now).0 + [GroupOf(GroupsOf(tables[..i], now).1, tables[i], now).group]
    ensures GroupsOf(tables[..i + 1], now).1 == GroupOf(GroupsOf(tables[..i], now).1, tables[i], now).after
  {
    assert forall j :: 0 <= j <= i ==> tables[..i + 1][j] == tables[j];
    assert forall j :: 0 <= j < i ==> tables[..i][j] == tables[j];
    assert tables[..i + 1][..i] == tables[..i];
  }

  /** The group of one round, from the values the loop body computes. */
  lemma {:induction false} GroupOfParts(labelSet: set<string>, nameSet: set<string>, groupIndex: nat, seriesIndex: nat,
                                         table: LoggerRows.ParsedTable, now: real,
                                         series: seq<ImportSeries>, maxSec: real, data: SeriesData, name: string)
    requires Importable(table)
    requires series == GroupSeries(labelSet, seriesIndex, table) && name == GroupName(nameSet, groupIndex + 1, table)
    requires maxSec == MaxSec(table.rows) && Fits(table.rows, |series|) && data == FillData(series, table.rows, BaseTime(now, maxSec))
    ensures GroupFor(labelSet, nameSet, groupIndex, seriesIndex, table, now).group
      == ImportGroup(GroupId(groupIndex + 1), name, series, data)
  {
    var g := GroupFor(labelSet, nameSet, groupIndex, seriesIndex, table, now).group;
    assert g.name == name;
    assert g.series == series;
    assert g.data == data;
    GroupFields(g, GroupId(groupIndex + 1), name, series, data);
  }

  lemma {:induction false} GroupFields(g: ImportGroup, id: string, name: string, series: seq<ImportSeries>, data: SeriesData)
    requires g.id == id && g.name == name && g.series == series && g.data == data
    ensures g == ImportGroup(id, name, series, data)
  {
  }

  /** The state after one round, from the values the loop body computes. */
  lemma {:induction false} CountersOfParts(labelSet: set<string>, nameSet: set<string>, groupIndex: nat, seriesIndex: nat,
                                            table: LoggerRows.ParsedTable, now: real, labels: seq<string>, name: string)
    requires Importable(table)
    requires labels == GroupLabels(labelSet, table) && name == GroupName(nameSet, groupIndex + 1, table)
    ensures GroupFor(labelSet, nameSet, groupIndex, seriesIndex, table, now).after
      == Counters(labelSet + KeysOf(labels), nameSet + {NormalizeLabel(name)}, groupIndex + 1, seriesIndex + |labels|)
  {
    var c := GroupFor(labelSet, nameSet, groupIndex, seriesIndex, table, now).after;
    assert c.labelSet == labelSet + KeysOf(labels);
    assert c.nameSet == nameSet + {NormalizeLabel(name)};
    CountersFields(c, labelSet + KeysOf(labels), nameSet + {NormalizeLabel(name)}, groupIndex + 1, seriesIndex + |labels|);
  }

  lemma {:induction false} CountersFields(c: Counters, labelSet: set<string>, nameSet: set<string>, groupIndex: nat, seriesIndex: nat)
    requires c.labelSet == labelSet && c.nameSet == nameSet && c.groupIndex == groupIndex && c.seriesIndex == seriesIndex
    ensures c == Counters(labelSet, nameSet, groupIndex, seriesIndex)
  {
  }

  // ---------------------------------------------------------------------------------
  // What one round promises

  /** The labels of a list of series. */
  function LabelsOf(series: seq<ImportSeries>): (r: seq<string>)
    ensures |r| == |series|
  {
    seq(|series|, j requires 0 <= j < |series| => series[j].labelText)
  }

  /** The series of one group carry the given labels, numbered on from `first`, with their colours. */
  lemma {:induction false} SeriesForFacts(labels: seq<string>, first: nat)
    ensures var s := SeriesFor(labels, first);
      LabelsOf(s) == labels
      && forall j :: 0 <= j < |s| ==> s[j].id == SeriesId(first + j + 1) && s[j].color == ColorOf(first + j + 1)
  {
    var s := SeriesFor(labels, first);
    assert forall j :: 0 <= j < |s| ==> LabelsOf(s)[j] == labels[j];
  }

  /**
   * One table's series carry its unique labels, numbered on from `seriesIndex` with their
   * palette colours; their label keys are non-empty, distinct and new to `labelSet`.
   */
  lemma {:induction false} GroupSeriesFacts(labelSet: set<string>, seriesIndex: nat, table: LoggerRows.ParsedTable)
    ensures var s := GroupSeries(labelSet, seriesIndex, table);
      LabelsOf(s) == GroupLabels(labelSet, table)
      && (forall j :: 0 <= j < |s| ==> s[j].id == SeriesId(seriesIndex + j + 1) && s[j].color == ColorOf(seriesIndex + j + 1))
      && KeysDistinct(LabelsOf(s))
      && (forall j :: 0 <= j < |s| ==> NormalizeLabel(LabelsOf(s)[j]) != "" && NormalizeLabel(LabelsOf(s)[j]) !in labelSet)
  {
    var labels := GroupLabels(labelSet, table);
    UniqueLabelsFresh(labelSet, BaseLabels(table.labels));
    SeriesForFacts(labels, seriesIndex);
  }

  /**
   * One table's `data` object has exactly one entry per series, and the entry of series `j`
   * holds the points of column `j`, stamped from `now - maxSec * 1000`.
   */
  lemma {:induction false} GroupDataFacts(labelSet: set<string>, seriesIndex: nat, table: LoggerRows.ParsedTable, now: real)
    requires Importable(table)
    ensures var s, d := GroupSeries(labelSet, seriesIndex, table), GroupData(labelSet, seriesIndex, table, now);
      d.Keys == IdsOf(s)
      && forall j :: 0 <= j < |s| ==> s[j].id in d && d[s[j].id] == Points(table.rows, j, BaseTime(now, MaxSec(table.rows)))
  {
    var s := GroupSeries(labelSet, seriesIndex, table);
    var baseTime := BaseTime(now, MaxSec(table.rows));
    SeriesIdsDistinct(GroupLabels(labelSet, table), seriesIndex);
    forall j | 0 <= j < |s|
      ensures s[j].id in FillData(s, table.rows, baseTime)
      ensures FillData(s, table.rows, baseTime)[s[j].id] == Points(table.rows, j, baseTime)
    {
      FillDataAt(s, table.rows, baseTime, j);
    }
  }

  /**
   * Rows timed from 0 on give points stamped between `now - maxSec * 1000` and `now`: the
   * latest row lands on the clock reading itself.
   */
  lemma {:induction false} PointsEndAtNow(rows: seq<LoggerRows.ParsedRow>, c: nat, now: real)
    requires forall k :: 0 <= k < |rows| ==> rows[k].timeSec >= 0.0
    ensures StampedWithin(Points(rows, c, BaseTime(now, MaxSec(rows))), now - MaxSec(rows) * 1000.0, now)
  {
    var m := MaxSec(rows);
    PointsWithin(rows, c, BaseTime(now, m), 0.0, m);
  }

  /** The group one round builds, field by field. */
  lemma {:induction false} RoundGroup(labelSet: set<string>, nameSet: set<string>, groupIndex: nat, seriesIndex: nat,
                                       table: LoggerRows.ParsedTable, now: real)
    requires Importable(table)
    ensures var g := GroupFor(labelSet, nameSet, groupIndex, seriesIndex, table, now).group;
      g.id == GroupId(groupIndex + 1)
      && g.name == GroupName(nameSet, groupIndex + 1, table)
      && g.series == GroupSeries(labelSet, seriesIndex, table)
      && g.data == GroupData(labelSet, seriesIndex, table, now)
  {
  }

  /** The counters one round leaves: one group more, and as many series more as it built. */
  lemma {:induction false} RoundIndices(labelSet: set<string>, nameSet: set<string>, groupIndex: nat, seriesIndex: nat,
                                         table: LoggerRows.ParsedTable, now: real)
    requires Importable(table)
    ensures var step := GroupFor(labelSet, nameSet, groupIndex, seriesIndex, table, now);
      step.after.groupIndex == groupIndex + 1 && step.after.seriesIndex == seriesIndex + |step.group.series|
  {
  }

  /** The key sets one round leaves: the keys of its labels and of its name added. */
  lemma {:induction false} RoundKeys(labelSet: set<string>, nameSet: set<string>, groupIndex: nat, seriesIndex: nat,
                                      table: LoggerRows.ParsedTable, now: real)
    requires Importable(table)
    ensures var step := GroupFor(labelSet, nameSet, groupIndex, seriesIndex, table, now);
      step.after.labelSet == labelSet + KeysOf(LabelsOf(step.group.series))
      && step.after.nameSet == nameSet + {NormalizeLabel(step.group.name)}
  {
    GroupSeriesFacts(labelSet, seriesIndex, table);
  }

  /** The last table adds the last round. */
  lemma {:induction false} GroupsOfLast(tables: seq<LoggerRows.ParsedTable>, now: real)
    requires AllImportable(tables) && tables != []
    ensures AllImportable(tables[..|tables| - 1]) && Importable(tables[|tables| - 1])
    ensures var prev := GroupsOf(tables[..|tables| - 1], now);
      var step := GroupOf(prev.1, tables[|tables| - 1], now);
      GroupsOf(tables, now) == (prev.0 + [step.group], step.after)
  {
    GroupsOfSnoc(tables, |tables| - 1, now);
    SnocSplit(tables);
  }

  // ---------------------------------------------------------------------------------
  // What the whole import promises

  /** The series of all groups, group after group. */
  function AllSeries(groups: seq<ImportGroup>): (r: seq<ImportSeries>) {
    if groups == [] then [] else AllSeries(groups[..|groups| - 1]) + groups[|groups| - 1].series
  }

  /** The group names, in order. */
  function NamesOf(groups: seq<ImportGroup>): (r: seq<string>)
    ensures |r| == |groups|
  {
    seq(|groups|, i requires 0 <= i < |groups| => groups[i].name)
  }

  lemma {:induction false} AllSeriesSnoc(groups: seq<ImportGroup>, g: ImportGroup)
    ensures AllSeries(groups + [g]) == AllSeries(groups) + g.series
  {
    assert (groups + [g])[..|groups|] == groups;
  }

  /**
   * After `n` rounds: the counters stand at `n` groups and at the number of series so far;
   * groups are numbered `group-1`, `group-2`, ... in order, and series `series-1`, `series-2`,
   * ... across all groups, each with the palette colour of its number.
   */
  predicate Numbered(groups: seq<ImportGroup>, st: Counters, n: nat) {
    var all := AllSeries(groups);
    st.groupIndex == n && |groups| == n && st.seriesIndex == |all|
    && (forall i :: 0 <= i < |groups| ==> groups[i].id == GroupId(i + 1))
    && (forall k :: 0 <= k < |all| ==> all[k].id == SeriesId(k + 1) && all[k].color == ColorOf(k + 1))
  }

  /** A round numbered on from the counters keeps the numbering. */
  lemma {:induction false} NumberedStep(groups: seq<ImportGroup>, st: Counters, n: nat, gi: nat, si: nat, g: ImportGroup, after: Counters)
    requires Numbered(groups, st, n) && st.groupIndex == gi && st.seriesIndex == si
    requires g.id == GroupId(gi + 1) && after.groupIndex == gi + 1 && after.seriesIndex == si + |g.series|
    requires forall j :: 0 <= j < |g.series| ==> g.series[j].id == SeriesId(si + j + 1) && g.series[j].color == ColorOf(si + j + 1)
    ensures Numbered(groups + [g], after, n + 1)
  {
    AllSeriesSnoc(groups, g);
    var all := AllSeries(groups + [g]);
    forall k | 0 <= k < |all|
      ensures all[k].id == SeriesId(k + 1) && all[k].color == ColorOf(k + 1)
    {
      if k >= si {
        assert all[k] == g.series[k - si];
      }
    }
  }

  /** The import numbers its groups and its series in order, each series with its colour. */
  lemma {:induction false} ImportNumbered(tables: seq<LoggerRows.ParsedTable>, now: real)
    requires AllImportable(tables)
    ensures Numbered(GroupsOf(tables, now).0, GroupsOf(tables, now).1, |tables|)
  {
    if tables != [] {
      var n := |tables|;
      GroupsOfLast(tables, now);
      var prev := GroupsOf(tables[..n - 1], now);
      ImportNumbered(tables[..n - 1], now);
      var st, t := prev.1, tables[n - 1];
      var gi, si := st.groupIndex, st.seriesIndex;
      var step := GroupFor(st.labelSet, st.nameSet, gi, si, t, now);
      RoundGroup(st.labelSet, st.nameSet, gi, si, t, now);
      RoundIndices(st.labelSet, st.nameSet, gi, si, t, now);
      GroupSeriesFacts(st.labelSet, si, t);
      NumberedStep(prev.0, st, n - 1, gi, si, step.group, step.after);
    }
  }

  /** The labels of two lists of series, one after the other. */
  lemma {:induction false} LabelsOfAppend(a: seq<ImportSeries>, b: seq<ImportSeries>)
    ensures LabelsOf(a + b) == LabelsOf(a) + LabelsOf(b)
  {
    assert forall j :: 0 <= j < |a + b| ==> LabelsOf(a + b)[j] == (LabelsOf(a) + LabelsOf(b))[j];
  }

  /**
   * After the rounds so far: the label set holds exactly the keys of all series labels, and
   * those keys are non-empty and pairwise distinct.
   */
  predicate LabelsUnique(groups: seq<ImportGroup>, st: Counters) {
    var labels := LabelsOf(AllSeries(groups));
    st.labelSet == KeysOf(labels) && KeysDistinct(labels)
    && forall k :: 0 <= k < |labels| ==> NormalizeLabel(labels[k]) != ""
  }

  /** A round whose labels are distinct, non-empty and new to the label set keeps the labels unique. */
  lemma {:induction false} LabelsStep(groups: seq<ImportGroup>, st: Counters, labelSet: set<string>, g: ImportGroup, after: Counters)
    requires LabelsUnique(groups, st) && st.labelSet == labelSet
    requires KeysDistinct(LabelsOf(g.series))
    requires forall j :: 0 <= j < |g.series| ==> NormalizeLabel(LabelsOf(g.series)[j]) != "" && NormalizeLabel(LabelsOf(g.series)[j]) !in labelSet
    requires after.labelSet == labelSet + KeysOf(LabelsOf(g.series))
    ensures LabelsUnique(groups + [g], after)
  {
    AllSeriesSnoc(groups, g);
    LabelsOfAppend(AllSeries(groups), g.series);
    KeysUniqueAppend(LabelsOf(AllSeries(groups)), LabelsOf(g.series));
  }

  /** Two lists of non-empty, distinct keys, the second new to the first, concatenate to one such list. */
  lemma {:induction false} KeysUniqueAppend(a: seq<string>, b: seq<string>)
    requires KeysDistinct(a) && forall k :: 0 <= k < |a| ==> NormalizeLabel(a[k]) != ""
    requires KeysDistinct(b) && forall k :: 0 <= k < |b| ==> NormalizeLabel(b[k]) != "" && NormalizeLabel(b[k]) !in KeysOf(a)
    ensures KeysOf(a + b) == KeysOf(a) + KeysOf(b) && KeysDistinct(a + b)
    ensures forall k :: 0 <= k < |a + b| ==> NormalizeLabel((a + b)[k]) != ""
  {
    KeysOfAppend(a, b);
    KeysDistinctAppend(a, b);
    forall k | 0 <= k < |a + b|
      ensures NormalizeLabel((a + b)[k]) != ""
    {
      if k >= |a| {
        assert (a + b)[k] == b[k - |a|];
      }
    }
  }

  /** No two series of the import share a label key, and the label set holds exactly their keys. */
  lemma {:induction false} ImportLabelsUnique(tables: seq<LoggerRows.ParsedTable>, now: real)
    requires AllImportable(tables)
    ensures LabelsUnique(GroupsOf(tables, now).0, GroupsOf(tables, now).1)
  {
    if tables == [] {
      assert LabelsOf(AllSeries([])) == [];
    } else {
      var n := |tables|;
      GroupsOfLast(tables, now);
      var prev := GroupsOf(tables[..n - 1], now);
      ImportLabelsUnique(tables[..n - 1], now);
      var st, t := prev.1, tables[n - 1];
      var gi, si := st.groupIndex, st.seriesIndex;
      var step := GroupFor(st.labelSet, st.nameSet, gi, si, t, now);
      RoundGroup(st.labelSet, st.nameSet, gi, si, t, now);
      RoundKeys(st.labelSet, st.nameSet, gi, si, t, now);
      GroupSeriesFacts(st.labelSet, si, t);
      LabelsStep(prev.0, st, st.labelSet, step.group, step.after);
    }
  }

  /** After the rounds so far: the name set holds exactly the keys of the group names, all distinct. */
  predicate NamesUnique(groups: seq<ImportGroup>, st: Counters) {
    st.nameSet == KeysOf(NamesOf(groups)) && KeysDistinct(NamesOf(groups))
  }

  /** A round whose name is new to the name set keeps the names unique. */
  lemma {:induction false} NamesStep(groups: seq<ImportGroup>, st: Counters, nameSet: set<string>, g: ImportGroup, after: Counters)
    requires NamesUnique(groups, st) && st.nameSet == nameSet
    requires NormalizeLabel(g.name) !in nameSet && after.nameSet == nameSet + {NormalizeLabel(g.name)}
    ensures NamesUnique(groups + [g], after)
  {
    var a := NamesOf(groups);
    assert NamesOf(groups + [g]) == a + [g.name];
    KeysOfAppend(a, [g.name]);
    assert KeysOf([g.name]) == {NormalizeLabel(g.name)} by {
      assert [g.name][..0] == [];
    }
    KeysDistinctAppend(a, [g.name]);
  }

  /** No two groups of the import share a name key, and the name set holds exactly their keys. */
  lemma {:induction false} ImportNamesUnique(tables: seq<LoggerRows.ParsedTable>, now: real)
    requires AllImportable(tables)
    ensures NamesUnique(GroupsOf(tables, now).0, GroupsOf(tables, now).1)
  {
    if tables != [] {
      var n := |tables|;
      GroupsOfLast(tables, now);
      var prev := GroupsOf(tables[..n - 1], now);
      ImportNamesUnique(tables[..n - 1], now);
      var st, t := prev.1, tables[n - 1];
      var gi, si := st.groupIndex, st.seriesIndex;
      var step := GroupFor(st.labelSet, st.nameSet, gi, si, t, now);
      RoundGroup(st.labelSet, st.nameSet, gi, si, t, now);
      RoundKeys(st.labelSet, st.nameSet, gi, si, t, now);
      NamesStep(prev.0, st, st.nameSet, step.group, step.after);
    }
  }

  /** The groups of a prefix of the tables are the prefix of the groups. */
  lemma {:induction false} GroupsOfPrefix(tables: seq<LoggerRows.ParsedTable>, m: nat, now: real)
    requires AllImportable(tables) && m <= |tables|
    ensures AllImportable(tables[..m])
    ensures GroupsOf(tables[..m], now).0 == GroupsOf(tables, now).0[..m]
  {
    if m == |tables| {
      TakeAll(tables);
      TakeAll(GroupsOf(tables, now).0);
    } else {
      var n := |tables|;
      GroupsOfLast(tables, now);
      var prev := GroupsOf(tables[..n - 1], now);
      var g := GroupOf(prev.1, tables[n - 1], now).group;
      assert GroupsOf(tables, now).0 == prev.0 + [g];
      GroupsOfPrefix(tables[..n - 1], m, now);
      TakeTake(tables, n - 1, m);
      assert GroupsOf(tables[..m], now).0 == prev.0[..m];
      TakeOfSnoc(prev.0, g, m);
    }
  }

  /** Group `i` is the round built from table `i` and the state the earlier rounds left. */
  lemma {:induction false} ImportGroupAt(tables: seq<LoggerRows.ParsedTable>, i: nat, now: real)
    requires AllImportable(tables) && i < |tables|
    ensures AllImportable(tables[..i]) && Importable(tables[i])
    ensures GroupsOf(tables, now).0[i] == GroupOf(GroupsOf(tables[..i], now).1, tables[i], now).group
  {
    GroupsOfPrefix(tables, i + 1, now);
    GroupsOfSnoc(tables, i, now);
    var prev := GroupsOf(tables[..i], now);
    var g := GroupOf(prev.1, tables[i], now).group;
    var upTo := GroupsOf(tables[..i + 1], now).0;
    assert upTo == prev.0 + [g];
    assert |prev.0| == i;
    assert upTo[i] == g;
    assert upTo == GroupsOf(tables, now).0[..i + 1];
  }

  /**
   * Group `i` is `group-(i+1)`, named after table `i` and made unique against the earlier
   * names; it has one series per base label of table `i`, and one `data` entry per series
   * holding the points of that column, stamped from `now - maxSec * 1000`.
   */
  lemma {:induction false} ImportGroupContents(tables: seq<LoggerRows.ParsedTable>, i: nat, now: real)
    requires AllImportable(tables) && i < |tables|
    ensures var g := GroupsOf(tables, now).0[i];
      var t := tables[i];
      g.id == GroupId(i + 1)
      && g.name == FreshName(GroupsOf(tables[..i], now).1.nameSet, SafeGroupBase(GroupBaseName(t.name, i + 1)), false)
      && |g.series| == |BaseLabels(t.labels)|
      && g.data.Keys == IdsOf(g.series)
      && forall j :: 0 <= j < |g.series| ==>
           g.series[j].id in g.data && g.data[g.series[j].id] == Points(t.rows, j, BaseTime(now, MaxSec(t.rows)))
  {
    ImportGroupAt(tables, i, now);
    ImportNumbered(tables[..i], now);
    var st, t := GroupsOf(tables[..i], now).1, tables[i];
    RoundGroup(st.labelSet, st.nameSet, i, st.seriesIndex, t, now);
    GroupDataFacts(st.labelSet, st.seriesIndex, t, now);
  }

  /** The active group after an import is the last one imported, and there is none without tables. */
  lemma {:induction false} PayloadLastActive(tables: seq<LoggerRows.ParsedTable>, now: real)
    requires AllImportable(tables)
    ensures var p := PayloadOf(tables, now);
      p.groups == GroupsOf(tables, now).0
      && (tables == [] <==> p.lastActiveGroupId == None)
      && (tables != [] ==> p.lastActiveGroupId == Some(GroupId(|tables|)))
  {
    ImportNumbered(tables, now);
  }

  /** A table `parseRowsToTable` accepts can be imported, and its labels are its base labels. */
  lemma {:induction false} ParsedTableImportable(rows: seq<seq<string>>, name: string, source: string)
    requires LoggerRows.ParseRowsToTable(rows, name, source).Ok?
    ensures var t := LoggerRows.ParseRowsToTable(rows, name, source).value;
      Importable(t) && BaseLabels(t.labels) == t.labels
  {
    var t := LoggerRows.ParseRowsToTable(rows, name, source).value;
    BaseLabelsOfClean(t.labels);
  }
}
