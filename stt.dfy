/**
 * The key/value command table of stt/app.js: input sanitising, the table's validation on load
 * and import, the longest-key match of a recognised phrase, and the table editor's updates.
 */
module Stt {
  import opened Wrappers
  import opened Seqs
  import opened Text

  const MaxKvItems: nat := 200
  const MaxFieldLength: nat := 15
  const MaxImportBytes: nat := 200000

  // ---------------------------------------------------------------------------------
  // sanitizeInput

  /** The characters of the class `[\u0000-\u001F\u007F]`. */
  predicate IsControl(c: char) {
    c <= '\U{1F}' || c == '\U{7F}'
  }

  predicate IsAngle(c: char) {
    c == '<' || c == '>'
  }

  /** No removed character is left in `s`. */
  predicate Free(s: string) {
    forall i :: 0 <= i < |s| ==> !IsControl(s[i]) && !IsAngle(s[i])
  }

  predicate NoControl(s: string) {
    forall i :: 0 <= i < |s| ==> !IsControl(s[i])
  }

  /** Neither end of `s` is white space. */
  predicate Trimmed(s: string) {
    s == [] || (!IsWhitespace(s[0]) && !IsWhitespace(s[|s| - 1]))
  }

  /** `replace(/[\u0000-\u001F\u007F]/g, '')`. */
  function StripControl(s: string): (r: string)
    ensures |r| <= |s|
    ensures NoControl(r)
  {
    if s == [] then []
    else
      var rest := StripControl(s[..|s| - 1]);
      var c := s[|s| - 1];
      if IsControl(c) then rest else rest + [c]
  }

  /** `replace(/[<>]/g, '')`. */
  function StripAngle(s: string): (r: string)
    ensures |r| <= |s|
    ensures forall i :: 0 <= i < |r| ==> !IsAngle(r[i])
  {
    if s == [] then []
    else
      var rest := StripAngle(s[..|s| - 1]);
      var c := s[|s| - 1];
      if IsAngle(c) then rest else rest + [c]
  }

  /** Removing the angle brackets puts no control character back. */
  lemma {:induction false} StripAngleKeepsNoControl(s: string)
    requires NoControl(s)
    ensures NoControl(StripAngle(s))
  {
    if s != [] {
      StripAngleKeepsNoControl(s[..|s| - 1]);
    }
  }

  lemma {:induction false} FreeSlice(s: string, a: nat, b: nat)
    requires Free(s) && a <= b <= |s|
    ensures Free(s[a..b])
  {
    assert forall i :: 0 <= i < b - a ==> s[a..b][i] == s[a + i];
  }

  /** `slice(0, n)` when longer than `n`. */
  function Truncate(s: string, n: nat): (r: string)
    ensures |r| <= n && |r| <= |s|
  {
    if |s| > n then s[..n] else s
  }

  /** The text the two replacements and `trim` leave, before the length cut. */
  function Cleaned(value: Option<string>): string {
    Trim(StripAngle(StripControl(value.GetOr(""))))
  }

  /**
   * `sanitizeInput(value)`: `(value ?? '').toString()` (`None` is `null` or `undefined`), both
   * replacements, `trim`, then the cut to 15 characters. The cut comes after the trim, so it can
   * leave white space at the end.
   */
  function SanitizeInput(value: Option<string>): (r: string)
    ensures |r| <= MaxFieldLength
  {
    Truncate(Cleaned(value), MaxFieldLength)
  }

  /** The cleaned text is trimmed and free of the removed characters. */
  lemma {:induction false} CleanedFacts(value: Option<string>)
    ensures Free(Cleaned(value)) && Trimmed(Cleaned(value))
    ensures |Cleaned(value)| <= |value.GetOr("")|
  {
    var n := StripControl(value.GetOr(""));
    StripAngleKeepsNoControl(n);
    var a := StripAngle(n);
    assert Free(a);
    TrimIsSlice(a);
    FreeSlice(a, TrimOffset(a), TrimOffset(a) + |Trim(a)|);
  }

  lemma {:induction false} StripControlNoOp(s: string)
    requires NoControl(s)
    ensures StripControl(s) == s
  {
    if s != [] {
      StripControlNoOp(s[..|s| - 1]);
      assert s[..|s| - 1] + [s[|s| - 1]] == s;
    }
  }

  lemma {:induction false} StripAngleNoOp(s: string)
    requires forall i :: 0 <= i < |s| ==> !IsAngle(s[i])
    ensures StripAngle(s) == s
  {
    if s != [] {
      StripAngleNoOp(s[..|s| - 1]);
      assert s[..|s| - 1] + [s[|s| - 1]] == s;
    }
  }

  /** A free text that starts with no white space is cleaned to itself without its trailing white space. */
  lemma {:induction false} CleanedOfFree(s: string)
    requires Free(s) && (s == [] || !IsWhitespace(s[0]))
    ensures Cleaned(Some(s)) == TrimEnd(s)
  {
    StripControlNoOp(s);
    StripAngleNoOp(s);
  }

  /** A free, trimmed text is its own cleaned form. */
  lemma {:induction false} CleanedOfClean(s: string)
    requires Free(s) && Trimmed(s)
    ensures Cleaned(Some(s)) == s
  {
    CleanedOfFree(s);
    if s != [] {
      TrimEndNoOp(s);
    }
  }

  /**
   * What `sanitizeInput` returns: at most 15 characters, none of the removed characters, no
   * white space at the start, and none at the end either unless the cut made it 15 long.
   */
  predicate IsSanitized(s: string) {
    |s| <= MaxFieldLength && Free(s) && (s == [] || !IsWhitespace(s[0]))
    && (|s| < MaxFieldLength ==> Trimmed(s))
  }

  /** `sanitizeInput` gives a sanitised prefix of the cleaned input. */
  lemma {:induction false} SanitizeInputSanitized(value: Option<string>)
    ensures IsSanitized(SanitizeInput(value)) && StartsWith(Cleaned(value), SanitizeInput(value))
  {
    var c := Cleaned(value);
    CleanedFacts(value);
    var r := SanitizeInput(value);
    assert r == c[..|r|];
    FreeSlice(c, 0, |r|);
    if r != [] {
      assert r[0] == c[0];
    }
  }

  /** When the cleaned text fits in 15 characters, `sanitizeInput` keeps all of it. */
  lemma {:induction false} SanitizeInputWhole(value: Option<string>)
    requires |Cleaned(value)| <= MaxFieldLength
    ensures SanitizeInput(value) == Cleaned(value) == SanitizeInputTrimmed(value)
  {
    CleanedFacts(value);
    if Cleaned(value) != [] {
      TrimEndNoOp(Cleaned(value));
    }
  }

  /**
   * Sanitising a sanitised text again only drops its trailing white space, and leaves a
   * non-empty text non-empty.
   */
  lemma {:induction false} ResanitizeTrimsEnd(s: string)
    requires IsSanitized(s)
    ensures SanitizeInput(Some(s)) == TrimEnd(s)
    ensures s != "" ==> SanitizeInput(Some(s)) != ""
  {
    CleanedOfFree(s);
    if s != "" && TrimEnd(s) == "" {
      TrimEndIsPrefix(s);
      KeepsFirstNonSpace(s);
    }
  }

  /** Trimming the end of a text that starts with a non-space keeps that character. */
  lemma {:induction false} KeepsFirstNonSpace(s: string)
    requires s != [] && !IsWhitespace(s[0])
    ensures TrimEnd(s) != []
    decreases |s|
  {
    if IsWhitespace(s[|s| - 1]) {
      assert |s| > 1;
      KeepsFirstNonSpace(s[..|s| - 1]);
    }
  }

  /** The texts `sanitizeInput` leaves unchanged are exactly the sanitised, trimmed ones. */
  lemma {:induction false} SanitizeInputFixedPoints(s: string)
    ensures SanitizeInput(Some(s)) == s <==> IsSanitized(s) && Trimmed(s)
  {
    if SanitizeInput(Some(s)) == s {
      SanitizeInputSanitized(Some(s));
      CleanedFacts(Some(s));
      assert |Cleaned(Some(s))| <= MaxFieldLength;
      assert s == Cleaned(Some(s));
    }
    if IsSanitized(s) && Trimmed(s) {
      CleanedOfClean(s);
    }
  }

  /**
   * `sanitizeInput` is not idempotent: a clean text longer than 15 characters whose 15th
   * character is white space (14 letters, a space and more letters) is cut to end in that
   * space, and sanitising the result again drops it.
   */
  lemma {:induction false} SanitizeInputNotIdempotent(s: string)
    requires Free(s) && Trimmed(s) && |s| > MaxFieldLength
    requires IsWhitespace(s[14]) && !IsWhitespace(s[13])
    ensures SanitizeInput(Some(s)) == s[..15]
    ensures SanitizeInput(Some(s[..15])) == s[..14]
    ensures SanitizeInput(Some(SanitizeInput(Some(s)))) != SanitizeInput(Some(s))
  {
    CleanedOfClean(s);
    var u := s[..15];
    FreeSlice(s, 0, 15);
    StripControlNoOp(u);
    StripAngleNoOp(u);
    assert u[0] == s[0];
    assert TrimStart(u) == u;
    assert u[..14] == s[..14];
    assert TrimEnd(u) == TrimEnd(s[..14]);
    assert TrimEnd(s[..14]) == s[..14];
    assert Cleaned(Some(u)) == s[..14];
    assert |s[..14]| != |u|;
  }

  /** The evidently intended `sanitizeInput`: trimmed once more after the cut. */
  function SanitizeInputTrimmed(value: Option<string>): (r: string)
    ensures |r| <= MaxFieldLength
  {
    TrimEnd(SanitizeInput(value))
  }

  /** The intended sanitiser gives a sanitised, trimmed prefix of the cleaned input. */
  lemma {:induction false} SanitizeInputTrimmedSanitized(value: Option<string>)
    ensures IsSanitized(SanitizeInputTrimmed(value)) && Trimmed(SanitizeInputTrimmed(value))
    ensures StartsWith(Cleaned(value), SanitizeInputTrimmed(value))
  {
    var c := Cleaned(value);
    CleanedFacts(value);
    var u := SanitizeInput(value);
    assert u == c[..|u|];
    var r := TrimEnd(u);
    TrimEndIsPrefix(u);
    assert r == c[..|r|];
    FreeSlice(c, 0, |r|);
    if r != [] {
      assert r[0] == c[0];
    }
  }

  /** The intended sanitiser is idempotent. */
  lemma {:induction false} SanitizeInputTrimmedIdempotent(value: Option<string>)
    ensures SanitizeInputTrimmed(Some(SanitizeInputTrimmed(value))) == SanitizeInputTrimmed(value)
  {
    var r := SanitizeInputTrimmed(value);
    SanitizeInputTrimmedSanitized(value);
    CleanedOfClean(r);
    if r != [] {
      TrimEndNoOp(r);
    }
  }

  // ---------------------------------------------------------------------------------
  // Entries and the table

  datatype KvPair = KvPair(key: string, value: string)

  /** A parsed JSON item: something other than an object, or an object's `key` and `value`. */
  datatype RawEntry = NotObject | Object(key: Option<string>, value: Option<string>)

  /** A parsed JSON document: something other than an array, or an array's items. */
  datatype RawData = NotArray | Array(items: seq<RawEntry>)

  /** `normalizeKvEntry(entry)`: both fields sanitised, `null` unless both are non-empty. */
  function NormalizeKvEntry(entry: RawEntry): (r: Option<KvPair>)
    ensures r.Some? <==> entry.Object? && SanitizeInput(entry.key) != "" && SanitizeInput(entry.value) != ""
    ensures r.Some? ==> r.value == KvPair(SanitizeInput(entry.key), SanitizeInput(entry.value))
  {
    if entry.NotObject? then None
    else
      var key := SanitizeInput(entry.key);
      var value := SanitizeInput(entry.value);
      if key == "" || value == "" then None else Some(KvPair(key, value))
  }

  /** A pair the table may hold: both fields sanitised and non-empty. */
  predicate ValidPair(p: KvPair) {
    p.key != "" && p.value != "" && IsSanitized(p.key) && IsSanitized(p.value)
  }

  predicate AllValid(kv: seq<KvPair>) {
    forall k :: 0 <= k < |kv| ==> ValidPair(kv[k])
  }

  /** The normalised entries among some items, in order, the invalid ones dropped. */
  function KeptEntries(items: seq<RawEntry>): (r: seq<KvPair>)
    ensures |r| <= |items|
  {
    if items == [] then []
    else
      var rest := KeptEntries(items[..|items| - 1]);
      match NormalizeKvEntry(items[|items| - 1])
      case Some(p) => rest + [p]
      case None => rest
  }

  /** `validateKvArray(data)`: the kept entries of the first 200 items, `null` when none. */
  function ValidKv(data: RawData): Option<seq<KvPair>> {
    if data.NotArray? then None
    else
      var safe := KeptEntries(Truncated(data.items));
      if safe == [] then None else Some(safe)
  }

  function Truncated(items: seq<RawEntry>): (r: seq<RawEntry>)
    ensures |r| <= MaxKvItems
  {
    if |items| > MaxKvItems then items[..MaxKvItems] else items
  }

  /** `validateKvArray(data)`: the `for ... of` loop over `data.slice(0, MAX_KV_ITEMS)`. */
  method ValidateKvArray(data: RawData) returns (r: Option<seq<KvPair>>)
    ensures r == ValidKv(data)
  {
    if data.NotArray? {
      return None;
    }
    var items := Truncated(data.items);
    var safe: seq<KvPair> := [];
    for i := 0 to |items|
      invariant safe == KeptEntries(items[..i])
    {
      assert items[..i + 1][..i] == items[..i];
      var normalized := NormalizeKvEntry(items[i]);
      if normalized.Some? {
        safe := safe + [normalized.value];
      }
    }
    assert items[..|items|] == items;
    r := if |safe| > 0 then Some(safe) else None;
  }

  /** Every kept entry is a valid pair, and each comes from an item that is an object. */
  lemma {:induction false} KeptEntriesValid(items: seq<RawEntry>)
    ensures AllValid(KeptEntries(items))
  {
    if items != [] {
      KeptEntriesValid(items[..|items| - 1]);
      var e := items[|items| - 1];
      var rest := KeptEntries(items[..|items| - 1]);
      var n := NormalizeKvEntry(e);
      if n.Some? {
        SanitizeInputSanitized(e.key);
        SanitizeInputSanitized(e.value);
        assert ValidPair(n.value);
        var t := rest + [n.value];
        assert forall k :: 0 <= k < |rest| ==> t[k] == rest[k];
      }
    }
  }

  /** The JSON form of the table, as `JSON.stringify` writes it and `JSON.parse` reads it back. */
  function ToRaw(kv: seq<KvPair>): (r: seq<RawEntry>)
    ensures |r| == |kv|
  {
    seq(|kv|, i requires 0 <= i < |kv| => Object(Some(kv[i].key), Some(kv[i].value)))
  }

  /** A stored pair as it is read back: each field without its trailing white space. */
  function Reloaded(kv: seq<KvPair>): (r: seq<KvPair>)
    ensures |r| == |kv|
  {
    seq(|kv|, i requires 0 <= i < |kv| => KvPair(TrimEnd(kv[i].key), TrimEnd(kv[i].value)))
  }

  /** Reading a stored table of valid pairs back keeps every pair, each field re-trimmed. */
  lemma {:induction false} KeptEntriesOfValid(kv: seq<KvPair>)
    requires AllValid(kv)
    ensures KeptEntries(ToRaw(kv)) == Reloaded(kv)
  {
    if kv != [] {
      var n := |kv|;
      var init, last := kv[..n - 1], kv[n - 1];
      var raw := ToRaw(kv);
      assert raw[..n - 1] == ToRaw(init);
      assert forall k :: 0 <= k < |init| ==> init[k] == kv[k];
      KeptEntriesOfValid(init);
      NormalizeStored(last, raw[n - 1]);
      ReloadedSnoc(kv);
    }
  }

  /** A stored valid pair normalises to itself with each field re-trimmed. */
  lemma {:induction false} NormalizeStored(p: KvPair, e: RawEntry)
    requires ValidPair(p) && e == Object(Some(p.key), Some(p.value))
    ensures NormalizeKvEntry(e) == Some(KvPair(TrimEnd(p.key), TrimEnd(p.value)))
  {
    ResanitizeTrimsEnd(p.key);
    ResanitizeTrimsEnd(p.value);
  }

  lemma {:induction false} ReloadedSnoc(kv: seq<KvPair>)
    requires kv != []
    ensures Reloaded(kv) == Reloaded(kv[..|kv| - 1]) + [KvPair(TrimEnd(kv[|kv| - 1].key), TrimEnd(kv[|kv| - 1].value))]
  {
  }

  /**
   * Saving and loading the table: `validateKvArray(JSON.parse(JSON.stringify(kvData)))` gives
   * back every pair of a table of 1 to 200 valid pairs, with each field's trailing white space
   * dropped.
   */
  lemma {:induction false} PersistRoundTrip(kv: seq<KvPair>)
    requires 0 < |kv| <= MaxKvItems && AllValid(kv)
    ensures ValidKv(Array(ToRaw(kv))) == Some(Reloaded(kv))
  {
    KeptEntriesOfValid(kv);
  }

  /** Every field of the table has no white space at its end. */
  predicate AllTrimmed(kv: seq<KvPair>) {
    forall k :: 0 <= k < |kv| ==> Trimmed(kv[k].key) && Trimmed(kv[k].value)
  }

  /** A table of valid pairs reloads as itself exactly when none of its fields ends in white space. */
  lemma {:induction false} ReloadedSame(kv: seq<KvPair>)
    requires AllValid(kv)
    ensures Reloaded(kv) == kv <==> AllTrimmed(kv)
  {
    if AllTrimmed(kv) {
      forall k | 0 <= k < |kv|
        ensures Reloaded(kv)[k] == kv[k]
      {
        assert ValidPair(kv[k]) && Trimmed(kv[k].key) && Trimmed(kv[k].value);
        TrimEndNoOp(kv[k].key);
        TrimEndNoOp(kv[k].value);
      }
    }
    if Reloaded(kv) == kv {
      forall k | 0 <= k < |kv|
        ensures Trimmed(kv[k].key) && Trimmed(kv[k].value)
      {
        assert Reloaded(kv)[k] == kv[k];
        assert ValidPair(kv[k]);
      }
    }
  }

  /**
   * So a key typed as 14 letters, a space and more letters is stored as those 14 letters and
   * the space, and the next load of the saved table changes it.
   */
  lemma {:induction false} ReloadChangesKey(s: string, p: KvPair)
    requires Free(s) && Trimmed(s) && |s| > MaxFieldLength
    requires IsWhitespace(s[14]) && !IsWhitespace(s[13])
    requires p == KvPair(SanitizeInput(Some(s)), "on")
    ensures AllValid([p]) && ValidKv(Array(ToRaw([p]))) != Some([p])
  {
    SanitizeInputNotIdempotent(s);
    SanitizeInputSanitized(Some(s));
    assert ValidPair(p);
    PersistRoundTrip([p]);
    assert !Trimmed(p.key);
    ReloadedSame([p]);
  }

  /** What `validateKvArray` returns is non-empty, at most 200 valid pairs long. */
  lemma {:induction false} ValidKvFacts(data: RawData)
    ensures var r := ValidKv(data);
      (data.NotArray? ==> r.None?)
      && (r.Some? ==> 0 < |r.value| <= MaxKvItems && AllValid(r.value))
  {
    if data.Array? {
      KeptEntriesValid(Truncated(data.items));
    }
  }

  // ---------------------------------------------------------------------------------
  // findMatch

  /** `replace(/\s+/g, '')`. */
  function RemoveWhitespace(s: string): (r: string)
    ensures |r| <= |s|
  {
    if s == [] then []
    else
      var rest := RemoveWhitespace(s[..|s| - 1]);
      if IsWhitespace(s[|s| - 1]) then rest else rest + [s[|s| - 1]]
  }

  /** `normalizeForMatch(text)`: sanitised, white space removed, lower-cased. */
  function NormalizeForMatch(text: Option<string>): (r: string)
    ensures |r| <= MaxFieldLength
  {
    Lower(RemoveWhitespace(SanitizeInput(text)))
  }

  /** `Math.ceil(n * 0.75)`, exact for these lengths. */
  function MinLen(n: nat): nat {
    (3 * n + 3) / 4
  }

  /** The normalised key of an entry. */
  function NormKey(r: KvPair): string {
    NormalizeForMatch(Some(r.key))
  }

  function NormKeys(kv: seq<KvPair>): (r: seq<string>)
    ensures |r| == |kv|
  {
    seq(|kv|, j requires 0 <= j < |kv| => NormKey(kv[j]))
  }

  /** A normalised key counts as found in the normalised text. */
  predicate KeyMatches(normText: string, normKey: string) {
    normKey != "" && |normText| >= MinLen(|normKey|) && Contains(normText, normKey)
  }

  /** Key `i` is the best: it matches, no match is longer, and every earlier match is shorter. */
  predicate IsBest(normText: string, keys: seq<string>, i: nat) {
    i < |keys| && KeyMatches(normText, keys[i])
    && (forall j :: 0 <= j < |keys| && KeyMatches(normText, keys[j]) ==> |keys[j]| <= |keys[i]|)
    && (forall j :: 0 <= j < i && KeyMatches(normText, keys[j]) ==> |keys[j]| < |keys[i]|)
  }

  predicate NoneMatches(normText: string, keys: seq<string>) {
    forall j :: 0 <= j < |keys| ==> !KeyMatches(normText, keys[j])
  }

  /**
   * `findMatch(text)` over the table `kv`: `None` (`{ key: null, value: null }`) when the text
   * normalises to nothing or no key is found in it; otherwise the entry with the longest
   * normalised key, the first of them on equal length.
   */
  method FindMatch(text: Option<string>, kv: seq<KvPair>) returns (r: Option<KvPair>)
    ensures var normText := NormalizeForMatch(text);
      r.None? <==> normText == "" || NoneMatches(normText, NormKeys(kv))
    ensures r.Some? ==> exists i :: 0 <= i < |kv| && IsBest(NormalizeForMatch(text), NormKeys(kv), i) && r.value == kv[i]
  {
    var normText := NormalizeForMatch(text);
    if normText == "" {
      return None;
    }
    ghost var keys := NormKeys(kv);
    var best: Option<nat> := None;
    var bestLen := 0;
    for i := 0 to |kv|
      invariant Scanned(normText, keys, i, best)
      invariant best.Some? ==> bestLen == |keys[best.value]|
    {
      var normKey := NormalizeForMatch(Some(kv[i].key));
      assert normKey == keys[i];
      ScanStep(normText, keys, i, best);
      var minLen := MinLen(|normKey|);
      if normKey != "" && |normText| >= minLen && Contains(normText, normKey) && (best.None? || |normKey| > bestLen) {
        best := Some(i);
        bestLen := |normKey|;
      }
    }
    assert keys[..|kv|] == keys;
    if best.Some? {
      r := Some(kv[best.value]);
    } else {
      r := None;
    }
  }

  /** What the first `i` keys leave behind: the best among them, `None` when none matched. */
  predicate Scanned(normText: string, keys: seq<string>, i: nat, best: Option<nat>) {
    i <= |keys|
    && (best.None? <==> NoneMatches(normText, keys[..i]))
    && (best.Some? ==> best.value < i && IsBest(normText, keys[..i], best.value))
  }

  /** The best after looking at key `i`: it replaces the best so far only when it is longer. */
  function NextBest(normText: string, keys: seq<string>, i: nat, best: Option<nat>): Option<nat>
    requires i < |keys| && (best.Some? ==> best.value < |keys|)
  {
    if KeyMatches(normText, keys[i]) && (best.None? || |keys[i]| > |keys[best.value]|) then Some(i) else best
  }

  lemma {:induction false} ScanStep(normText: string, keys: seq<string>, i: nat, best: Option<nat>)
    requires i < |keys| && Scanned(normText, keys, i, best)
    ensures Scanned(normText, keys, i + 1, NextBest(normText, keys, i, best))
  {
    var pre, ext := keys[..i], keys[..i + 1];
    assert forall j :: 0 <= j < i ==> ext[j] == pre[j];
    assert ext[i] == keys[i];
  }

  /** So a key counts as found exactly when it is non-empty and occurs in the text. */
  lemma {:induction false} KeyMatchesIsContainment(normText: string, normKey: string)
    ensures KeyMatches(normText, normKey) <==> normKey != "" && Contains(normText, normKey)
  {
    if normKey != "" && Contains(normText, normKey) {
      GateNeverRejects(normText, normKey);
    }
  }

  /** At most one entry is the best, so `FindMatch` is determined by the table and the text. */
  lemma {:induction false} BestIsUnique(normText: string, keys: seq<string>, i: nat, j: nat)
    requires IsBest(normText, keys, i) && IsBest(normText, keys, j)
    ensures i == j
  {
  }

  /** The length gate never turns away a key that occurs in the text. */
  lemma {:induction false} GateNeverRejects(normText: string, normKey: string)
    requires Contains(normText, normKey)
    ensures |normText| >= MinLen(|normKey|)
  {
    var i :| 0 <= i <= |normText| && StartsWith(normText[i..], normKey);
  }

  // ---------------------------------------------------------------------------------
  // The table editor

  /** `DEFAULT_KV_DATA`. */
  function DefaultKvData(): seq<KvPair> {
    [KvPair("전등 켜", "LED_ON"), KvPair("전등 꺼", "LED_OFF")]
  }

  /** Whether a file may be imported: at most 200000 bytes and no script or XML tag in it. */
  predicate ImportAllowed(size: nat, text: string) {
    var lower := Lower(text);
    size <= MaxImportBytes && !Contains(lower, "<script") && !Contains(lower, "</script") && !Contains(lower, "<?xml")
  }

  /** The table and the edit mode of the key/value section. */
  class KvEditor {
    var kvData: seq<KvPair>
    var editMode: bool

    /** The table only ever holds valid pairs. */
    predicate Valid()
      reads this
    {
      AllValid(kvData)
    }

    /** `loadKvDataFromStorage() || cloneDefaultKvData()`, not in edit mode. */
    constructor (stored: Option<RawData>)
      ensures Valid() && editMode == false
      ensures kvData == (if stored.Some? && ValidKv(stored.value).Some? then ValidKv(stored.value).value else DefaultKvData())
    {
      editMode := false;
      var loaded: Option<seq<KvPair>> := None;
      if stored.Some? {
        loaded := ValidateKvArray(stored.value);
      }
      kvData := if loaded.Some? then loaded.value else DefaultKvData();
      DefaultValid();
      if stored.Some? {
        ValidKvFacts(stored.value);
      }
    }

    /** The edit button: `setEditMode(!isEditMode)`. */
    method ToggleEditMode()
      requires Valid()
      modifies this
      ensures Valid()
      ensures editMode == !old(editMode) && kvData == old(kvData)
    {
      editMode := !editMode;
    }

    /**
     * The add button: outside edit mode, or with an empty sanitised key or value, nothing
     * changes; otherwise the sanitised pair goes at the end of the table.
     */
    method AddPair(keyText: Option<string>, valueText: Option<string>) returns (added: bool)
      requires Valid()
      modifies this
      ensures Valid()
      ensures added <==> old(editMode) && SanitizeInput(keyText) != "" && SanitizeInput(valueText) != ""
      ensures kvData == if added then old(kvData) + [KvPair(SanitizeInput(keyText), SanitizeInput(valueText))] else old(kvData)
      ensures editMode == old(editMode)
    {
      if !editMode {
        return false;
      }
      var k := SanitizeInput(keyText);
      var v := SanitizeInput(valueText);
      if k == "" || v == "" {
        return false;
      }
      AddKeepsValid(kvData, keyText, valueText);
      kvData := kvData + [KvPair(k, v)];
      added := true;
    }

    /** A row's delete button: in edit mode `kvData.splice(idx, 1)`, which past the end removes nothing. */
    method DeleteRow(idx: nat)
      requires Valid()
      modifies this
      ensures Valid()
      ensures kvData == if old(editMode) && idx < |old(kvData)| then old(kvData)[..idx] + old(kvData)[idx + 1..] else old(kvData)
      ensures editMode == old(editMode)
    {
      if !editMode {
        return;
      }
      if idx < |kvData| {
        DeleteKeepsValid(kvData, idx);
        kvData := kvData[..idx] + kvData[idx + 1..];
      }
    }

    /** A row's key input: a non-empty sanitised text replaces that row's key. */
    method EditKey(idx: nat, text: Option<string>)
      requires Valid() && idx < |kvData|
      modifies this
      ensures Valid()
      ensures var s := SanitizeInput(text);
        kvData == if s == "" then old(kvData) else old(kvData)[idx := KvPair(s, old(kvData)[idx].value)]
      ensures editMode == old(editMode)
    {
      var s := SanitizeInput(text);
      if s != "" {
        EditKeepsValid(kvData, idx, text);
        kvData := kvData[idx := KvPair(s, kvData[idx].value)];
      }
    }

    /** A row's value input: a non-empty sanitised text replaces that row's value. */
    method EditValue(idx: nat, text: Option<string>)
      requires Valid() && idx < |kvData|
      modifies this
      ensures Valid()
      ensures var s := SanitizeInput(text);
        kvData == if s == "" then old(kvData) else old(kvData)[idx := KvPair(old(kvData)[idx].key, s)]
      ensures editMode == old(editMode)
    {
      var s := SanitizeInput(text);
      if s != "" {
        EditKeepsValid(kvData, idx, text);
        kvData := kvData[idx := KvPair(kvData[idx].key, s)];
      }
    }

    /**
     * The import input: a file over the size limit, with a script or XML tag, that does not
     * parse (`parsed` is `None`) or that validates to nothing is refused and the table kept.
     */
    method ImportFile(size: nat, text: string, parsed: Option<RawData>) returns (ok: bool)
      requires Valid()
      modifies this
      ensures Valid()
      ensures ok <==> ImportAllowed(size, text) && parsed.Some? && ValidKv(parsed.value).Some?
      ensures kvData == if ok then ValidKv(parsed.value).value else old(kvData)
      ensures editMode == old(editMode)
    {
      if !ImportAllowed(size, text) || parsed.None? {
        return false;
      }
      var validated := ValidateKvArray(parsed.value);
      if validated.None? {
        return false;
      }
      ValidKvFacts(parsed.value);
      kvData := validated.value;
      ok := true;
    }

    /** The reset button, once confirmed: the two default pairs. */
    method Reset()
      requires Valid()
      modifies this
      ensures Valid()
      ensures kvData == DefaultKvData() && editMode == old(editMode)
    {
      DefaultValid();
      kvData := DefaultKvData();
    }
  }

  /** Adding a pair of non-empty sanitised fields keeps a table of valid pairs valid. */
  lemma {:induction false} AddKeepsValid(kv: seq<KvPair>, keyText: Option<string>, valueText: Option<string>)
    requires AllValid(kv) && SanitizeInput(keyText) != "" && SanitizeInput(valueText) != ""
    ensures AllValid(kv + [KvPair(SanitizeInput(keyText), SanitizeInput(valueText))])
  {
    SanitizeInputSanitized(keyText);
    SanitizeInputSanitized(valueText);
    var p := KvPair(SanitizeInput(keyText), SanitizeInput(valueText));
    assert ValidPair(p);
    var t := kv + [p];
    assert forall j :: 0 <= j < |kv| ==> t[j] == kv[j];
  }

  /** Deleting a row keeps a table of valid pairs valid. */
  lemma {:induction false} DeleteKeepsValid(kv: seq<KvPair>, idx: nat)
    requires AllValid(kv) && idx < |kv|
    ensures AllValid(kv[..idx] + kv[idx + 1..])
  {
    var d := kv[..idx] + kv[idx + 1..];
    assert forall j :: 0 <= j < |d| ==> d[j] == if j < idx then kv[j] else kv[j + 1];
  }

  /** Editing a field to a non-empty sanitised text keeps a table of valid pairs valid. */
  lemma {:induction false} EditKeepsValid(kv: seq<KvPair>, idx: nat, text: Option<string>)
    requires AllValid(kv) && idx < |kv| && SanitizeInput(text) != ""
    ensures AllValid(kv[idx := KvPair(SanitizeInput(text), kv[idx].value)])
    ensures AllValid(kv[idx := KvPair(kv[idx].key, SanitizeInput(text))])
  {
    SanitizeInputSanitized(text);
  }

  /** The default table is valid. */
  lemma {:induction false} DefaultValid()
    ensures AllValid(DefaultKvData())
  {
    var d := DefaultKvData();
    PlainWordSanitized(d[0].key);
    PlainWordSanitized(d[0].value);
    PlainWordSanitized(d[1].key);
    PlainWordSanitized(d[1].value);
  }

  /** A short word of letters, digits, `_` and inner spaces is sanitised and trimmed. */
  lemma {:induction false} PlainWordSanitized(s: string)
    requires 0 < |s| < MaxFieldLength
    requires forall i :: 0 <= i < |s| ==> s[i] == ' ' || s[i] == '_' || ('0' <= s[i] <= '9') || ('A' <= s[i] <= 'Z') || ('\U{AC00}' <= s[i] <= '\U{D7A3}')
    requires s[0] != ' ' && s[|s| - 1] != ' '
    ensures IsSanitized(s) && Trimmed(s)
  {
  }
}
