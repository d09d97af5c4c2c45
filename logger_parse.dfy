/**
 * The line grammar of the data logger (logger/app.js `parseIncoming`, `parseJsonPayload`).
 * A trimmed line wrapped in braces is read as a JSON object whose numeric members become
 * labelled samples; any other line is split at `;` and `,` into parts `label/value` or
 * `value`, unlabelled parts numbered in order; a line none of whose parts yields a number
 * may still be a single number. `JSON.parse` is a parameter of the model.
 */
module LoggerParse {
  import opened Wrappers
  import opened Text

  /** `{ label, value, unlabeledIndex }`: `name` is the label, `None` for `null`. */
  datatype Sample = Sample(name: Option<string>, value: real, unlabeledIndex: Option<nat>)

  /**
   * The values `JSON.parse` can return, as far as `parseJsonPayload` tells them apart: finite
   * numbers, arrays, objects with their members in `Object.keys` order, and everything else
   * (strings, booleans, `null`, and numbers that overflow to an infinity).
   */
  datatype Json = JNumber(num: real) | JArray(items: seq<Json>) | JObject(members: seq<(string, Json)>) | JOther

  /** `JSON.parse`: `None` when it throws. */
  type JsonParser = string -> Option<Json>

  // ---------------------------------------------------------------- JSON payloads

  /** The array branch: finite items become `value_{index + 1}`, in order. */
  function ArraySamples(items: seq<Json>, from: nat): seq<Sample>
    decreases |items|
  {
    if items == [] then []
    else
      var rest := ArraySamples(items[1..], from + 1);
      if items[0].JNumber? then [Sample(Some("value_" + NatToString(from + 1)), items[0].num, None)] + rest else rest
  }

  /** The object branch: members with a finite number become samples labelled with their key, in key order. */
  function MemberSamples(members: seq<(string, Json)>): seq<Sample>
    decreases |members|
  {
    if members == [] then []
    else
      var rest := MemberSamples(members[1..]);
      if members[0].1.JNumber? then [Sample(Some(members[0].0), members[0].1.num, None)] + rest else rest
  }

  /** `parseJsonPayload(obj)`. */
  function JsonPayload(obj: Json): seq<Sample> {
    match obj
    case JNumber(v) => [Sample(None, v, None)]
    case JArray(items) => ArraySamples(items, 0)
    case JObject(members) => MemberSamples(members)
    case JOther => []
  }

  /** Every sample of an object comes from a numeric member in key order, and every numeric member gives one. */
  lemma {:induction false} MemberSamplesSpec(members: seq<(string, Json)>)
    ensures forall s :: s in MemberSamples(members) ==>
              s.unlabeledIndex.None? && s.name.Some? && (s.name.value, JNumber(s.value)) in members
    ensures forall k :: 0 <= k < |members| && members[k].1.JNumber? ==>
              Sample(Some(members[k].0), members[k].1.num, None) in MemberSamples(members)
    ensures |MemberSamples(members)| <= |members|
    decreases |members|
  {
    if members != [] {
      MemberSamplesSpec(members[1..]);
      forall k | 0 < k < |members| && members[k].1.JNumber?
        ensures Sample(Some(members[k].0), members[k].1.num, None) in MemberSamples(members)
      {
        assert members[1..][k - 1] == members[k];
      }
    }
  }

  /** Array items are labelled by their one-based position; non-numbers leave gaps in the numbering, not in the list. */
  lemma {:induction false} ArraySamplesSpec(items: seq<Json>, from: nat)
    ensures forall s :: s in ArraySamples(items, from) ==>
              exists k :: 0 <= k < |items| && items[k] == JNumber(s.value) && s.name == Some("value_" + NatToString(from + k + 1))
    ensures |ArraySamples(items, from)| <= |items|
    decreases |items|
  {
    if items != [] {
      ArraySamplesSpec(items[1..], from + 1);
      forall s | s in ArraySamples(items[1..], from + 1)
        ensures exists k :: 0 <= k < |items| && items[k] == JNumber(s.value) && s.name == Some("value_" + NatToString(from + k + 1))
      {
        var k :| 0 <= k < |items[1..]| && items[1..][k] == JNumber(s.value) && s.name == Some("value_" + NatToString(from + 1 + k + 1));
        assert items[k + 1] == items[1..][k];
      }
    }
  }

  /** The loop of the object branch of `parseJsonPayload` over `Object.keys(obj)`. */
  method ParseMembers(members: seq<(string, Json)>) returns (results: seq<Sample>)
    ensures results == MemberSamples(members)
  {
    results := [];
    var i := 0;
    while i < |members|
      invariant 0 <= i <= |members|
      invariant results + MemberSamples(members[i..]) == MemberSamples(members)
    {
      assert members[i..][1..] == members[i + 1..];
      if members[i].1.JNumber? {
        results := results + [Sample(Some(members[i].0), members[i].1.num, None)];
      }
      i := i + 1;
    }
    assert members[i..] == [];
  }

  /** The loop of the array branch of `parseJsonPayload`. */
  method ParseItems(items: seq<Json>) returns (results: seq<Sample>)
    ensures results == ArraySamples(items, 0)
  {
    results := [];
    var i := 0;
    while i < |items|
      invariant 0 <= i <= |items|
      invariant results + ArraySamples(items[i..], i) == ArraySamples(items, 0)
    {
      assert items[i..][1..] == items[i + 1..];
      if items[i].JNumber? {
        results := results + [Sample(Some("value_" + NatToString(i + 1)), items[i].num, None)];
      }
      i := i + 1;
    }
    assert items[i..] == [];
  }

  /** `parseJsonPayload(obj)`. */
  method ParseJsonPayload(obj: Json) returns (results: seq<Sample>)
    ensures results == JsonPayload(obj)
  {
    match obj
    case JNumber(v) => results := [Sample(None, v, None)];
    case JArray(items) => results := ParseItems(items);
    case JObject(members) => results := ParseMembers(members);
    case JOther => results := [];
  }

  // ---------------------------------------------------------------- separated parts

  predicate IsSeparator(c: char) {
    c == ';' || c == ','
  }

  /** `raw.split(/[;,]/)`: the pieces between separators, empty ones included. */
  function SplitParts(s: string): (r: seq<string>)
    ensures |r| >= 1
    decreases |s|
  {
    if s == [] then [""]
    else
      var rest := SplitParts(s[1..]);
      if IsSeparator(s[0]) then [""] + rest else [[s[0]] + rest[0]] + rest[1..]
  }

  function SeparatorCount(s: string): nat
    decreases |s|
  {
    if s == [] then 0 else (if IsSeparator(s[0]) then 1 else 0) + SeparatorCount(s[1..])
  }

  /** Splitting yields one piece more than there are separators, and no piece holds a separator. */
  lemma {:induction false} SplitPartsSpec(s: string)
    ensures |SplitParts(s)| == SeparatorCount(s) + 1
    ensures forall k, j :: 0 <= k < |SplitParts(s)| && 0 <= j < |SplitParts(s)[k]| ==> !IsSeparator(SplitParts(s)[k][j])
    decreases |s|
  {
    if s != [] {
      SplitPartsSpec(s[1..]);
      var rest := SplitParts(s[1..]);
      if !IsSeparator(s[0]) {
        var r := SplitParts(s);
        forall k, j | 0 <= k < |r| && 0 <= j < |r[k]|
          ensures !IsSeparator(r[k][j])
        {
          if k == 0 {
            if j > 0 {
              assert r[0][j] == rest[0][j - 1];
            }
          } else {
            assert r[k] == rest[k];
          }
        }
      }
    }
  }

  /** `.map((p) => p.trim()).filter(Boolean)`. */
  function TrimmedParts(pieces: seq<string>): (r: seq<string>)
    ensures forall k :: 0 <= k < |r| ==> r[k] != ""
    decreases |pieces|
  {
    if pieces == [] then []
    else
      var p := Trim(pieces[0]);
      if p == "" then TrimmedParts(pieces[1..]) else [p] + TrimmedParts(pieces[1..])
  }

  /** `part.indexOf(c)`: the first position of `c`, or -1. */
  function IndexOf(s: string, c: char): (r: int)
    ensures -1 <= r < |s|
    ensures r >= 0 ==> s[r] == c && forall j :: 0 <= j < r ==> s[j] != c
    ensures r == -1 ==> forall j :: 0 <= j < |s| ==> s[j] != c
    decreases |s|
  {
    if s == [] then -1
    else if s[0] == c then 0
    else
      var r := IndexOf(s[1..], c);
      if r == -1 then -1 else r + 1
  }

  /** One part: a label before the first `/` (`null` when blank) and the number after it, or the whole part as a number. */
  function PartReading(part: string): (r: Option<(Option<string>, real)>)
    ensures r.Some? && r.value.0.Some? ==> r.value.0.value != ""
  {
    var d := IndexOf(part, '/');
    var tag := if d >= 0 && Trim(part[..d]) != "" then Some(Trim(part[..d])) else None;
    var valueText := if d >= 0 then Trim(part[d + 1..]) else part;
    match ParseFloat(valueText)
    case None => None
    case Some(v) => Some((tag, v))
  }

  /** The sample a reading gives when `next` unlabelled samples were seen before it. */
  function SampleOf(reading: (Option<string>, real), next: nat): Sample {
    if reading.0.None? then Sample(None, reading.1, Some(next)) else Sample(reading.0, reading.1, None)
  }

  /** `unlabeledIndex` after a reading. */
  function NextIndex(reading: (Option<string>, real), next: nat): nat {
    if reading.0.None? then next + 1 else next
  }

  /** The samples of the parts from `next` on; unlabelled ones are counted from `next`. */
  function PartSamples(parts: seq<string>, next: nat): seq<Sample>
    decreases |parts|
  {
    if parts == [] then []
    else
      var reading := PartReading(parts[0]);
      if reading.None? then PartSamples(parts[1..], next)
      else [SampleOf(reading.value, next)] + PartSamples(parts[1..], NextIndex(reading.value, next))
  }

  /** One step of `PartSamples`, for a reading computed elsewhere. */
  lemma {:induction false} PartSamplesStep(parts: seq<string>, next: nat, reading: Option<(Option<string>, real)>)
    requires parts != [] && reading == PartReading(parts[0])
    ensures PartSamples(parts, next) ==
              if reading.None? then PartSamples(parts[1..], next)
              else [SampleOf(reading.value, next)] + PartSamples(parts[1..], NextIndex(reading.value, next))
  {
  }

  /** The label/value readings of the parts that hold a finite number, in order. */
  function Readings(parts: seq<string>): seq<(Option<string>, real)>
    decreases |parts|
  {
    if parts == [] then []
    else match PartReading(parts[0])
      case None => Readings(parts[1..])
      case Some(x) => [x] + Readings(parts[1..])
  }

  function Unlabelled(samples: seq<Sample>): nat
    decreases |samples|
  {
    if samples == [] then 0 else (if samples[0].name.None? then 1 else 0) + Unlabelled(samples[1..])
  }

  /**
   * `parseIncoming` keeps exactly the parts whose value is a finite number, in order, and
   * numbers the unlabelled ones `next`, `next + 1`, … in order of appearance.
   */
  lemma {:induction false} PartSamplesSpec(parts: seq<string>, next: nat)
    ensures |PartSamples(parts, next)| == |Readings(parts)|
    ensures forall i :: 0 <= i < |Readings(parts)| ==>
              PartSamples(parts, next)[i].name == Readings(parts)[i].0 && PartSamples(parts, next)[i].value == Readings(parts)[i].1
    ensures forall i :: 0 <= i < |Readings(parts)| ==>
              PartSamples(parts, next)[i].unlabeledIndex ==
                if Readings(parts)[i].0.None? then Some(next + Unlabelled(PartSamples(parts, next)[..i])) else None
  {
    PartSamplesNumbered(parts, next);
    NumberedSpecOf(PartSamples(parts, next), Readings(parts), next);
  }

  /** `NumberedSpec` for a sample list known to be the numbered readings. */
  lemma {:induction false} NumberedSpecOf(ss: seq<Sample>, rs: seq<(Option<string>, real)>, next: nat)
    requires ss == Numbered(rs, next)
    ensures |ss| == |rs|
    ensures forall i :: 0 <= i < |rs| ==> ss[i].name == rs[i].0 && ss[i].value == rs[i].1
    ensures forall i :: 0 <= i < |rs| ==>
              ss[i].unlabeledIndex == if rs[i].0.None? then Some(next + Unlabelled(ss[..i])) else None
  {
    NumberedSpec(rs, next);
  }

  /** The readings numbered from `next`. */
  function Numbered(rs: seq<(Option<string>, real)>, next: nat): seq<Sample>
    decreases |rs|
  {
    if rs == [] then [] else [SampleOf(rs[0], next)] + Numbered(rs[1..], NextIndex(rs[0], next))
  }

  lemma {:induction false} PartSamplesNumbered(parts: seq<string>, next: nat)
    ensures PartSamples(parts, next) == Numbered(Readings(parts), next)
    decreases |parts|
  {
    if parts != [] {
      var reading := PartReading(parts[0]);
      PartSamplesStep(parts, next, reading);
      ReadingsStep(parts, reading);
      if reading.None? {
        PartSamplesNumbered(parts[1..], next);
      } else {
        PartSamplesNumbered(parts[1..], NextIndex(reading.value, next));
        assert ([reading.value] + Readings(parts[1..]))[1..] == Readings(parts[1..]);
      }
    }
  }

  lemma {:induction false} ReadingsStep(parts: seq<string>, reading: Option<(Option<string>, real)>)
    requires parts != [] && reading == PartReading(parts[0])
    ensures Readings(parts) == if reading.None? then Readings(parts[1..]) else [reading.value] + Readings(parts[1..])
  {
  }

  lemma {:induction false} NumberedSpec(rs: seq<(Option<string>, real)>, next: nat)
    ensures |Numbered(rs, next)| == |rs|
    ensures forall i :: 0 <= i < |rs| ==> Numbered(rs, next)[i].name == rs[i].0 && Numbered(rs, next)[i].value == rs[i].1
    ensures forall i :: 0 <= i < |rs| ==>
              Numbered(rs, next)[i].unlabeledIndex == if rs[i].0.None? then Some(next + Unlabelled(Numbered(rs, next)[..i])) else None
    decreases |rs|
  {
    if rs != [] {
      var n := NextIndex(rs[0], next);
      NumberedSpec(rs[1..], n);
      var r := Numbered(rs, next);
      var rest := Numbered(rs[1..], n);
      forall i | 1 <= i < |rs|
        ensures r[i].unlabeledIndex == if rs[i].0.None? then Some(next + Unlabelled(r[..i])) else None
      {
        assert r[i] == rest[i - 1] && rs[i] == rs[1..][i - 1];
        assert r[..i][1..] == rest[..i - 1];
      }
    }
  }

  /** The parts of a line that is not JSON. */
  function LineParts(raw: string): seq<string> {
    TrimmedParts(SplitParts(raw))
  }

  predicate BraceWrapped(raw: string) {
    StartsWith(raw, "{") && EndsWith(raw, "}")
  }

  /** `parseIncoming(text)`. */
  function Incoming(text: string, parse: JsonParser): seq<Sample> {
    var raw := Trim(text);
    if raw == "" then []
    else if BraceWrapped(raw) then
      match parse(raw)
      case None => []
      case Some(obj) => JsonPayload(obj)
    else
      var samples := PartSamples(LineParts(raw), 0);
      if samples != [] then samples
      else match ParseFloat(raw)
        case None => []
        case Some(v) => [Sample(None, v, Some(0))]
  }

  /** Only a brace-wrapped line reaches `JSON.parse`: for every other line the parser is irrelevant. */
  lemma {:induction false} OnlyBracesReachJson(text: string, p: JsonParser, q: JsonParser)
    requires !BraceWrapped(Trim(text))
    ensures Incoming(text, p) == Incoming(text, q)
  {
  }

  /** A parser that, like `JSON.parse`, reads brace-wrapped text only as an object. */
  ghost predicate ObjectsForBraces(p: JsonParser) {
    forall s :: BraceWrapped(s) && p(s).Some? ==> p(s).value.JObject?
  }

  /**
   * The samples of a brace-wrapped line are the object's numeric members, labelled by key;
   * the array and bare-number branches of `parseJsonPayload` are never taken from a line.
   */
  lemma {:induction false} BracedLineSamples(text: string, p: JsonParser)
    requires ObjectsForBraces(p) && Trim(text) != "" && BraceWrapped(Trim(text))
    ensures p(Trim(text)).None? ==> Incoming(text, p) == []
    ensures p(Trim(text)).Some? ==>
              p(Trim(text)).value.JObject? && Incoming(text, p) == MemberSamples(p(Trim(text)).value.members)
  {
  }

  /**
   * An unbraced line whose parts yield numbers gives exactly those samples; only when none
   * does, the whole line is read as one unlabelled number.
   */
  lemma {:induction false} UnbracedLineSamples(text: string, p: JsonParser)
    requires Trim(text) != "" && !BraceWrapped(Trim(text))
    ensures var parts := LineParts(Trim(text));
            && (Readings(parts) != [] ==> Incoming(text, p) == PartSamples(parts, 0))
            && (Readings(parts) == [] ==>
                  Incoming(text, p) == if ParseFloat(Trim(text)).Some? then [Sample(None, ParseFloat(Trim(text)).value, Some(0))] else [])
  {
    PartSamplesSpec(LineParts(Trim(text)), 0);
  }

  /** A part `5/x` yields nothing, so the line falls back to `parseFloat` of the whole line and logs 5 unlabelled. */
  lemma {:induction false} LabelledNonNumberFallsBack()
    ensures Incoming("5/x", (s: string) => None) == [Sample(None, 5.0, Some(0))]
  {
    var raw := "5/x";
    TrimNoOp(raw);
    SplitWithoutSeparator(raw);
    assert TrimmedParts([raw]) == [raw] by {
      assert [raw][1..] == [];
    }
    FiveSlashX();
    PartSamplesStep([raw], 0, None);
    assert [raw][1..] == [];
    FiveSlashXNumber();
    FallsBackToWholeLine(raw, (s: string) => None, 5.0);
  }

  /** A trimmed line that is not brace-wrapped and has no numeric part is read whole by `parseFloat`. */
  lemma {:induction false} FallsBackToWholeLine(raw: string, p: JsonParser, v: real)
    requires Trim(raw) == raw && raw != "" && !BraceWrapped(raw)
    requires PartSamples(LineParts(raw), 0) == [] && ParseFloat(raw) == Some(v)
    ensures Incoming(raw, p) == [Sample(None, v, Some(0))]
  {
  }

  /** A piece without separators is its own split. */
  lemma {:induction false} SplitWithoutSeparator(s: string)
    requires forall j :: 0 <= j < |s| ==> !IsSeparator(s[j])
    ensures SplitParts(s) == [s]
    decreases |s|
  {
    if s != [] {
      SplitWithoutSeparator(s[1..]);
      assert [s[0]] + s[1..] == s;
    }
  }

  lemma {:induction false} FiveSlashX()
    ensures PartReading("5/x") == None
  {
    var part := "5/x";
    assert IndexOf(part, '/') == 1;
    assert part[2..] == "x";
    TrimNoOp("x");
    NoDigitsNoNumber("x");
  }

  lemma {:induction false} NoDigitsNoNumber(s: string)
    requires s == "x"
    ensures ParseFloat(s) == None
  {
    assert TrimStart(s) == s;
    assert SplitSign(s) == (false, s);
    assert DigitSpan(s) == 0;
    assert s[0..] == s;
  }

  lemma {:induction false} FiveSlashXNumber()
    ensures ParseFloat("5/x") == Some(5.0)
  {
    var raw := "5/x";
    assert TrimStart(raw) == raw;
    assert SplitSign(raw) == (false, raw);
    assert DigitSpan(raw[1..]) == 0;
    assert DigitSpan(raw) == 1;
    assert raw[..1] == "5";
    assert DigitsValue("5") == 5 by {
      assert "5"[..0] == [];
    }
    assert ExponentScale(raw[1..]) == 1.0;
  }

  // ---------------------------------------------------------------- the parser as the source runs it

  /** The `parts.forEach` loop of `parseIncoming`, with its running `unlabeledIndex`. */
  method ParseParts(parts: seq<string>) returns (results: seq<Sample>)
    ensures results == PartSamples(parts, 0)
  {
    results := [];
    var unlabeledIndex: nat := 0;
    var i := 0;
    while i < |parts|
      invariant 0 <= i <= |parts|
      invariant results + PartSamples(parts[i..], unlabeledIndex) == PartSamples(parts, 0)
    {
      var reading := PartReading(parts[i]);
      PartSamplesStep(parts[i..], unlabeledIndex, reading);
      assert parts[i..][1..] == parts[i + 1..];
      if reading.Some? {
        results := results + [SampleOf(reading.value, unlabeledIndex)];
        unlabeledIndex := NextIndex(reading.value, unlabeledIndex);
      }
      i := i + 1;
    }
    assert parts[i..] == [];
  }

  /** `parseIncoming(text)`. */
  method ParseIncoming(text: string, parse: JsonParser) returns (results: seq<Sample>)
    ensures results == Incoming(text, parse)
  {
    var raw := Trim(text);
    if raw == "" {
      return [];
    }
    if BraceWrapped(raw) {
      var obj := parse(raw);
      if obj.None? {
        return [];
      }
      results := ParseJsonPayload(obj.value);
      return;
    }
    results := ParseParts(LineParts(raw));
    if results == [] {
      var value := ParseFloat(raw);
      if value.Some? {
        results := [Sample(None, value.value, Some(0))];
      }
    }
  }
}
