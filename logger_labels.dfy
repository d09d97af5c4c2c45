/**
 * The data logger's label registry helpers (logger/app.js): `sanitizeText`, `normalizeLabel`,
 * `isLabelAvailable` and `makeUniqueLabel`. The registry itself (`labelMap`) maps a
 * normalised label to the group and series that own it.
 */
module LoggerLabels {
  import opened Wrappers
  import opened Text

  /** Where a label is registered: the owning group and series ids. */
  datatype LabelRef = LabelRef(groupId: nat, seriesId: nat)

  type LabelMap = map<string, LabelRef>

  /** The characters `sanitizeText` deletes: `<`, `>`, `&`, `"`, `'` and the backquote. */
  predicate IsMarkup(c: char) {
    c == '<' || c == '>' || c == '&' || c == '"' || c == '\'' || c == '`'
  }

  function StripMarkup(s: string): (r: string)
    ensures |r| <= |s|
    ensures NoMarkup(r)
  {
    if s == [] then [] else (if IsMarkup(s[0]) then [] else [s[0]]) + StripMarkup(s[1..])
  }

  /** `replace(/\s+/g, ' ')`: every maximal run of white space becomes one space. */
  function CollapseWhitespace(s: string): (r: string)
    ensures |r| <= |s|
    ensures (r == []) == (s == [])
    ensures s != [] ==> r[0] == if IsWhitespace(s[0]) then ' ' else s[0]
    ensures PlainSpaces(r)
    ensures NoSpaceRuns(r)
    ensures NoMarkup(s) ==> NoMarkup(r)
    decreases |s|
  {
    if s == [] then []
    else if IsWhitespace(s[0]) then
      var t := TrimStart(s[1..]);
      TrimStartIsSuffix(s[1..]);
      assert forall i :: 0 <= i < |t| ==> t[i] == s[1 + (|s| - 1 - |t|) + i];
      var rest := CollapseWhitespace(t);
      ConsNoSpaceRuns(' ', rest);
      [' '] + rest
    else
      var rest := CollapseWhitespace(s[1..]);
      ConsNoSpaceRuns(s[0], rest);
      [s[0]] + rest
  }

  /** One more character in front keeps a string free of space runs unless it makes one. */
  lemma {:induction false} ConsNoSpaceRuns(c: char, t: string)
    requires NoSpaceRuns(t)
    requires c == ' ' ==> t == [] || t[0] != ' '
    ensures NoSpaceRuns([c] + t)
  {
    var r := [c] + t;
    forall i: nat | i + 1 < |r|
      ensures !SpaceRunAt(r, i)
    {
      if i > 0 {
        assert !SpaceRunAt(t, i - 1);
      }
    }
  }

  /** No character of `s` is one `sanitizeText` deletes. */
  predicate NoMarkup(s: string) {
    forall i :: 0 <= i < |s| ==> !IsMarkup(s[i])
  }

  /** The only white space in `s` is the plain space. */
  predicate PlainSpaces(s: string) {
    forall i :: 0 <= i < |s| ==> IsWhitespace(s[i]) ==> s[i] == ' '
  }

  /** Two spaces in a row start at `i`. */
  predicate SpaceRunAt(s: string, i: nat)
    requires i + 1 < |s|
  {
    s[i] == ' ' && s[i + 1] == ' '
  }

  /** No two spaces in a row. */
  predicate NoSpaceRuns(s: string) {
    forall i: nat :: i + 1 < |s| ==> !SpaceRunAt(s, i)
  }

  /** A string `sanitizeText` leaves as it is. */
  predicate IsClean(s: string) {
    NoMarkup(s) && PlainSpaces(s) && NoSpaceRuns(s)
    && (s == [] || (!IsWhitespace(s[0]) && !IsWhitespace(s[|s| - 1])))
  }

  lemma {:induction false} StripMarkupKeepsOthers(s: string)
    requires NoMarkup(s)
    ensures StripMarkup(s) == s
  {
    if s != [] {
      StripMarkupKeepsOthers(s[1..]);
    }
  }

  lemma {:induction false} CollapseWhitespaceNoOp(s: string)
    requires PlainSpaces(s)
    requires NoSpaceRuns(s)
    ensures CollapseWhitespace(s) == s
  {
    if s != [] {
      if IsWhitespace(s[0]) {
        assert TrimStart(s[1..]) == s[1..] by {
          if |s| > 1 { assert !SpaceRunAt(s, 0); }
        }
      }
      assert forall i: nat :: i + 1 < |s[1..]| ==> SpaceRunAt(s[1..], i) == SpaceRunAt(s, i + 1);
      CollapseWhitespaceNoOp(s[1..]);
    }
  }

  /** `sanitizeText`: markup characters deleted, white-space runs collapsed to one space, trimmed. */
  function SanitizeText(value: string): (r: string)
    ensures IsClean(r)
    ensures |r| <= |value|
  {
    var c := CollapseWhitespace(StripMarkup(value));
    TrimOfCollapsedIsClean(c);
    Trim(c)
  }

  /** Trimming keeps the character-wise properties of a collapsed, markup-free string. */
  lemma {:induction false} TrimOfCollapsedIsClean(c: string)
    requires NoMarkup(c)
    requires PlainSpaces(c)
    requires NoSpaceRuns(c)
    ensures IsClean(Trim(c))
  {
    TrimIsSlice(c);
    var r, k := Trim(c), TrimOffset(c);
    assert forall i :: 0 <= i < |r| ==> r[i] == c[k + i];
    assert forall i: nat :: i + 1 < |r| ==> SpaceRunAt(r, i) == SpaceRunAt(c, k + i);
  }

  /** Sanitising is idempotent: the stored labels and names are fixed points. */
  lemma {:induction false} SanitizeTextIdempotent(s: string)
    ensures SanitizeText(SanitizeText(s)) == SanitizeText(s)
  {
    var r := SanitizeText(s);
    StripMarkupKeepsOthers(r);
    CollapseWhitespaceNoOp(r);
    TrimNoOp(r);
  }

  /** A clean string is a fixed point of `sanitizeText`. */
  lemma {:induction false} SanitizeTextOfClean(s: string)
    requires IsClean(s)
    ensures SanitizeText(s) == s
  {
    StripMarkupKeepsOthers(s);
    CollapseWhitespaceNoOp(s);
    TrimNoOp(s);
  }

  /** `normalizeLabel`: the registry key of a label (trimmed, lower-cased). */
  function NormalizeLabel(value: string): (r: string)
    ensures |r| <= |value|
  {
    Lower(Trim(value))
  }

  /** A sanitised label has a non-empty key exactly when it is non-empty itself. */
  lemma {:induction false} NormalizeCleanEmpty(s: string)
    requires IsClean(s)
    ensures (NormalizeLabel(s) == "") == (s == "")
  {
    TrimNoOp(s);
  }

  /** `isLabelAvailable(label, seriesId)`; `seriesId` is `None` for a label not yet owned. */
  predicate IsLabelAvailable(labelMap: LabelMap, name: string, seriesId: Option<nat>) {
    var key := NormalizeLabel(name);
    key == "" || key !in labelMap || Some(labelMap[key].seriesId) == seriesId
  }

  /** The `k`-th retry candidate of `makeUniqueLabel`: `${base}_${k}`. */
  function Suffixed(base: string, k: nat): string {
    base + ("_" + NatToString(k))
  }

  lemma {:induction false} LowerKeepsSuffix(k: nat)
    ensures Lower("_" + NatToString(k)) == "_" + NatToString(k)
  {
    var d := "_" + NatToString(k);
    forall i | 0 <= i < |d|
      ensures Lower(d)[i] == d[i]
    {
      LowerAt(d, i);
    }
  }

  lemma {:induction false} LowerSuffixed(p: string, k: nat)
    ensures Lower(Suffixed(p, k)) == Suffixed(Lower(p), k)
  {
    LowerAppend(p, "_" + NatToString(k));
    LowerKeepsSuffix(k);
  }

  lemma {:induction false} TrimStartSuffixed(base: string, k: nat)
    ensures TrimStart(Suffixed(base, k)) == Suffixed(TrimStart(base), k)
  {
    var d := "_" + NatToString(k);
    assert d[0] == '_';
    TrimStartAppend(base, d);
  }

  lemma {:induction false} TrimEndSuffixed(p: string, k: nat)
    ensures TrimEnd(Suffixed(p, k)) == Suffixed(p, k)
  {
    var d := "_" + NatToString(k);
    var u := p + d;
    assert u[|u| - 1] == d[|d| - 1];
    assert IsDigit(d[|d| - 1]);
    TrimEndNoOp(u);
  }

  lemma {:induction false} TrimSuffixed(base: string, k: nat)
    ensures Trim(Suffixed(base, k)) == Suffixed(TrimStart(base), k)
  {
    TrimStartSuffixed(base, k);
    TrimEndSuffixed(TrimStart(base), k);
  }

  lemma {:induction false} NormalizeSuffixed(base: string, k: nat)
    ensures NormalizeLabel(Suffixed(base, k)) == Suffixed(Lower(TrimStart(base)), k)
  {
    TrimSuffixed(base, k);
    LowerSuffixed(TrimStart(base), k);
  }

  lemma {:induction false} SuffixedInjective(p: string, j: nat, k: nat)
    requires Suffixed(p, j) == Suffixed(p, k)
    ensures j == k
  {
    assert NatToString(j) == Suffixed(p, j)[|p| + 1..];
    assert NatToString(k) == Suffixed(p, k)[|p| + 1..];
    NatToStringInjective(j, k);
  }

  /** Distinct retry indices give distinct registry keys. */
  lemma {:induction false} SuffixedKeysInjective(base: string, j: nat, k: nat)
    requires NormalizeLabel(Suffixed(base, j)) == NormalizeLabel(Suffixed(base, k))
    ensures j == k
  {
    NormalizeSuffixed(base, j);
    NormalizeSuffixed(base, k);
    SuffixedInjective(Lower(TrimStart(base)), j, k);
  }

  /** No retry candidate has the registry key of the base itself. */
  lemma {:induction false} SuffixedKeyNotBase(base: string, k: nat)
    ensures NormalizeLabel(Suffixed(base, k)) != NormalizeLabel(base)
  {
    NormalizeSuffixed(base, k);
  }

  /** The candidate `makeUniqueLabel` tries on round `index` (counting from 1). */
  function Candidate(base: string, index: nat): string {
    if index <= 1 then base else Suffixed(base, index - 1)
  }

  /** A candidate's key is never the key of a later retry. */
  lemma {:induction false} CandidateKeyFresh(base: string, index: nat, j: nat)
    requires index >= 1 && j >= index
    ensures NormalizeLabel(Suffixed(base, j)) != NormalizeLabel(Candidate(base, index))
  {
    if index == 1 {
      SuffixedKeyNotBase(base, j);
    } else if NormalizeLabel(Suffixed(base, j)) == NormalizeLabel(Suffixed(base, index - 1)) {
      SuffixedKeysInjective(base, index - 1, j);
    }
  }

  /** The values `f` takes on `1..m`. */
  function ImageUpTo(f: nat -> string, m: nat): set<string> {
    if m == 0 then {} else ImageUpTo(f, m - 1) + {f(m)}
  }

  lemma {:induction false} ImageUpToMembers(f: nat -> string, m: nat, x: string)
    requires x in ImageUpTo(f, m)
    ensures exists n :: 1 <= n <= m && x == f(n)
  {
    if x != f(m) {
      ImageUpToMembers(f, m - 1, x);
    }
  }

  /** A function injective on `1..m` takes `m` distinct values there. */
  lemma {:induction false} ImageUpToCount(f: nat -> string, m: nat)
    requires forall i, j :: 1 <= i < j <= m ==> f(i) != f(j)
    ensures |ImageUpTo(f, m)| == m
  {
    if m > 0 {
      ImageUpToCount(f, m - 1);
      if f(m) in ImageUpTo(f, m - 1) {
        ImageUpToMembers(f, m - 1, f(m));
      }
    }
  }

  lemma {:induction false} ImageUpToWithin(f: nat -> string, m: nat, keys: set<string>)
    requires forall n :: 1 <= n <= m ==> f(n) in keys
    ensures ImageUpTo(f, m) <= keys
  {
    if m > 0 {
      ImageUpToWithin(f, m - 1, keys);
    }
  }

  /** The registry key of each candidate. */
  function CandidateKey(base: string): (f: nat -> string) {
    (n: nat) => NormalizeLabel(Candidate(base, n))
  }

  /** Distinct rounds try candidates with distinct keys. */
  lemma {:induction false} CandidateKeysDistinct(base: string, i: nat, j: nat)
    requires 1 <= i < j
    ensures CandidateKey(base)(i) != CandidateKey(base)(j)
  {
    assert Candidate(base, j) == Suffixed(base, j - 1);
    CandidateKeyFresh(base, i, j - 1);
  }

  lemma {:induction false} SubsetCard<T>(a: set<T>, b: set<T>)
    requires a <= b
    ensures |a| <= |b|
  {
    assert b == a + (b - a);
  }

  /** The key of a candidate that is not available is registered. */
  lemma {:induction false} TakenKeyRegistered(labelMap: LabelMap, base: string, n: nat)
    requires !IsLabelAvailable(labelMap, Candidate(base, n), None)
    ensures CandidateKey(base)(n) in labelMap.Keys
  {
  }

  /** Among the first `|labelMap| + 1` candidates one is free: the retry loop terminates. */
  lemma {:induction false} SomeCandidateFree(labelMap: LabelMap, base: string)
    ensures exists k :: 1 <= k <= |labelMap.Keys| + 1 && IsLabelAvailable(labelMap, Candidate(base, k), None)
  {
    if forall k :: 1 <= k <= |labelMap.Keys| + 1 ==> !IsLabelAvailable(labelMap, Candidate(base, k), None) {
      var m := |labelMap.Keys| + 1;
      var f := CandidateKey(base);
      forall k | 1 <= k <= m
        ensures f(k) in labelMap.Keys
      {
        TakenKeyRegistered(labelMap, base, k);
      }
      forall i, j | 1 <= i < j <= m
        ensures f(i) != f(j)
      {
        CandidateKeysDistinct(base, i, j);
      }
      ImageUpToWithin(f, m, labelMap.Keys);
      ImageUpToCount(f, m);
      SubsetCard(ImageUpTo(f, m), labelMap.Keys);
      assert false;
    }
  }

  /** Two rounds that are both the first free one are the same round. */
  lemma {:induction false} LeastFreeUnique(labelMap: LabelMap, base: string, n: nat, m: nat)
    requires 1 <= n && IsLabelAvailable(labelMap, Candidate(base, n), None)
    requires forall j :: 1 <= j < n ==> !IsLabelAvailable(labelMap, Candidate(base, j), None)
    requires 1 <= m && IsLabelAvailable(labelMap, Candidate(base, m), None)
    requires forall j :: 1 <= j < m ==> !IsLabelAvailable(labelMap, Candidate(base, j), None)
    ensures n == m
  {
  }

  /** The round `makeUniqueLabel` stops at: the first one whose candidate is free. */
  function LeastFree(labelMap: LabelMap, base: string): (n: nat)
    ensures 1 <= n <= |labelMap.Keys| + 1 && IsLabelAvailable(labelMap, Candidate(base, n), None)
    ensures forall j :: 1 <= j < n ==> !IsLabelAvailable(labelMap, Candidate(base, j), None)
  {
    SomeCandidateFree(labelMap, base);
    FirstFreeBelow(labelMap, base, |labelMap.Keys| + 1)
  }

  /** The first free round below a bound, when some round up to it is free. */
  function FirstFreeBelow(labelMap: LabelMap, base: string, bound: nat): (n: nat)
    requires exists k :: 1 <= k <= bound && IsLabelAvailable(labelMap, Candidate(base, k), None)
    ensures 1 <= n <= bound && IsLabelAvailable(labelMap, Candidate(base, n), None)
    ensures forall j :: 1 <= j < n ==> !IsLabelAvailable(labelMap, Candidate(base, j), None)
    decreases bound
  {
    if exists k :: 1 <= k < bound && IsLabelAvailable(labelMap, Candidate(base, k), None) then
      FirstFreeBelow(labelMap, base, bound - 1)
    else
      bound
  }

  /** The label `makeUniqueLabel(base)` returns, as a value. */
  function UniqueLabel(labelMap: LabelMap, base: string): (r: string)
    ensures base == "" ==> r == ""
    ensures base != "" ==> IsLabelAvailable(labelMap, r, None)
  {
    if base == "" then "" else Candidate(base, LeastFree(labelMap, base))
  }

  /**
   * `makeUniqueLabel`: the base itself when its key is free, otherwise `base_k` for the
   * smallest `k >= 1` whose key is free; the empty base gives the empty label.
   */
  method MakeUniqueLabel(labelMap: LabelMap, base: string) returns (r: string)
    ensures r == UniqueLabel(labelMap, base)
  {
    if base == "" {
      return "";
    }
    var index;
    r, index := SearchCandidates(labelMap, base);
    LeastFreeUnique(labelMap, base, index, LeastFree(labelMap, base));
  }

  /** The candidate `UniqueLabel` picks is the base when that is free, else the first free `base_k`. */
  lemma {:induction false} UniqueLabelIsFirstFree(labelMap: LabelMap, base: string)
    requires base != ""
    ensures IsLabelAvailable(labelMap, base, None) ==> UniqueLabel(labelMap, base) == base
    ensures !IsLabelAvailable(labelMap, base, None) ==>
      exists k :: k >= 1 && UniqueLabel(labelMap, base) == Suffixed(base, k)
        && forall j :: 1 <= j < k ==> !IsLabelAvailable(labelMap, Suffixed(base, j), None)
  {
    var index := LeastFree(labelMap, base);
    if index > 1 {
      EarlierSuffixesTaken(labelMap, base, index);
      assert UniqueLabel(labelMap, base) == Suffixed(base, index - 1);
    }
  }

  /** The key of a fresh unique label is not registered yet (or is empty). */
  lemma {:induction false} UniqueLabelKeyFree(labelMap: LabelMap, base: string)
    ensures NormalizeLabel(UniqueLabel(labelMap, base)) == "" || NormalizeLabel(UniqueLabel(labelMap, base)) !in labelMap
  {
  }

  /** The retry loop of `makeUniqueLabel`: the first candidate whose key is free, and its round. */
  method SearchCandidates(labelMap: LabelMap, base: string) returns (r: string, index: nat)
    ensures index >= 1 && r == Candidate(base, index) && IsLabelAvailable(labelMap, r, None)
    ensures forall j :: 1 <= j < index ==> !IsLabelAvailable(labelMap, Candidate(base, j), None)
  {
    ghost var bound := LeastFree(labelMap, base);
    r := base;
    index := 1;
    while !IsLabelAvailable(labelMap, r, None)
      invariant 1 <= index <= bound
      invariant r == Candidate(base, index)
      invariant forall j :: 1 <= j < index ==> !IsLabelAvailable(labelMap, Candidate(base, j), None)
      decreases bound - index
    {
      NextCandidate(labelMap, base, r, index, bound);
      r := Suffixed(base, index);
      index := index + 1;
    }
  }

  /** A taken candidate is not the free one at `bound`, and the next round tries `base_index`. */
  lemma {:induction false} NextCandidate(labelMap: LabelMap, base: string, r: string, index: nat, bound: nat)
    requires 1 <= index <= bound && IsLabelAvailable(labelMap, Candidate(base, bound), None)
    requires r == Candidate(base, index) && !IsLabelAvailable(labelMap, r, None)
    ensures index < bound && Candidate(base, index + 1) == Suffixed(base, index)
  {
  }

  /** The candidates before round `index` were all taken: the base and the suffixes below `index - 1`. */
  lemma {:induction false} EarlierSuffixesTaken(labelMap: LabelMap, base: string, index: nat)
    requires index > 1
    requires forall j :: 1 <= j < index ==> !IsLabelAvailable(labelMap, Candidate(base, j), None)
    ensures !IsLabelAvailable(labelMap, base, None)
    ensures forall j :: 1 <= j < index - 1 ==> !IsLabelAvailable(labelMap, Suffixed(base, j), None)
  {
    forall j | 1 <= j < index - 1
      ensures !IsLabelAvailable(labelMap, Suffixed(base, j), None)
    {
      assert Candidate(base, j + 1) == Suffixed(base, j);
    }
    assert !IsLabelAvailable(labelMap, Candidate(base, 1), None);
  }
}
