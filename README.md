# A verified model of the browser maker-tools

This project models the browser apps of a small set of maker tools. It proves properties of that model in Dafny.

- **Data logger** (`logger/app.js`). The logger keeps groups of named series and turns incoming serial lines into labelled samples. Each sample is routed into its group's series, and a new series is registered under a unique label. Groups and series can be renamed and removed. The state is saved under a storage quota with a bounded trim-and-retry loop. Data is exported as an XLSX workbook (sheets, OPC parts, a ZIP container with CRC-32) and imported from CSV, XLSX or SpreadsheetML.
- **Logger graph** (`logger/graph.js`). This covers the series point lists, the start time, the data summary and the nearest-point search behind hover.
- **Speech-to-text matcher** (`stt/app.js`). This covers its key/value editor, the sanitiser of entries and the matching of recognised text against keys.
- **BLE connection** (`common/connection/ble.js`). This covers the line buffer of the notification handler, and chunked writes with their line ending and their retry.
- **App state**, in two variants (`common/connection/app_state.js`, `teachableMachine/app_state.js`). These cover device and connection-type selection and the line ending derived from them.
- **BLE button grid** (`ble/button-grid.js`). This covers grid presets, the custom grid size check, button configurations and colour normalisation.
- **Personality quest** (`quest/app.js`). This covers the shuffle, the answer bookkeeping and the result computation.

Pure code is modelled as datatypes, functions and lemmas. Objects whose fields change are modelled as classes with `modifies` clauses and a value snapshot (`State()`, `Model()`). Loops become methods tied to specification functions. Several things outside the program become parameters:

- browser storage is a `storage` oracle that stores, refuses for quota, or fails;
- `Math.random` is a sequence of draws in [0, 1);
- the random pastel colour is a function of the button index;
- raw inflate of ZIP entries is an `inflate` function;
- number display is a `show` function where the export only passes values through.

## Model

| member | source | states |
|---|---|---|
| Text.TrimStart | logger/app.js:106 | the text no longer starts with white space and is never longer |
| Text.TrimEnd | logger/app.js:106 | the text no longer ends with white space and is never longer |
| Text.Trim | logger/app.js:106 | `trim` leaves no white space at either end and never lengthens the text |
| Text.TrimIsSlice | logger/app.js:1773 | the trimmed text is one contiguous slice of the input |
| Text.TrimIdempotent | logger/app.js:1773 | trimming twice is trimming once |
| Text.TrimStartAppend | logger/app.js:3285 | leading white space comes only from the first part when the second starts with a non-space |
| Text.Lower | logger/app.js:106 | `toLowerCase` keeps the length (ASCII letters only, see Left out) |
| Text.LowerAppend | logger/app.js:106 | lower-casing distributes over concatenation |
| Text.NatToString | logger/app.js:1777 | the numeral of `n` is a non-empty run of digits, two or more from 10 on |
| Text.NatToStringInjective | logger/app.js:1777 | distinct ids give distinct numerals, so numbered labels never collide |
| Text.DigitsValueOfNatToString | logger/app.js:1827 | reading the numeral's digits gives the number back |
| Text.ParseIntOfNatToString | logger/app.js:1827 | `parseInt` of a written id is that id |
| Text.ParseFloatOfNatToString | logger/app.js:975 | `parseFloat` of a plain numeral is the number it names |
| Bytes.LE16 | logger/app.js:807 | `setUint16(·, x, true)` writes two bytes |
| Bytes.LE32 | logger/app.js:806 | `setUint32(·, x, true)` writes four bytes |
| Bytes.ReadLE16 | logger/app.js:1187 | `getUint16(p, true)` reads a value below 2^16, only where two bytes remain |
| Bytes.ReadLE32 | logger/app.js:1174 | `getUint32(p, true)` reads a value below 2^32, only where four bytes remain |
| Bytes.ReadLE16OfLE16 | logger/app.js:807 | reading back a 16-bit little-endian write gives the value modulo 2^16 |
| Bytes.ReadLE32OfLE32 | logger/app.js:806 | reading back a 32-bit little-endian write gives the value modulo 2^32 |
| Bytes.Utf8Char | logger/app.js:538-540 | one character takes one to four bytes, exactly one when it is ASCII |
| Bytes.Utf8Encode | logger/app.js:538-540 | `TextEncoder.encode` gives between one and four bytes per character |
| Bytes.Utf8EncodeAscii | logger/app.js:538-540 | ASCII text encodes to its own character codes, one byte each |
| Js.FalsyValues | common/connection/app_state.js:35-36 | `!!v` is false exactly for undefined, null, false, 0 and the empty string, and `!!` of a boolean is itself |
| LoggerLabels.StripMarkup | logger/app.js:1771 | deleting `<>&"'` and the backquote leaves none of them and never lengthens the text |
| LoggerLabels.CollapseWhitespace | logger/app.js:1772 | `replace(/\s+/g, ' ')` leaves only plain single spaces, is empty exactly for empty input, keeps markup-freeness |
| LoggerLabels.StripMarkupKeepsOthers | logger/app.js:1771 | text without markup characters is left unchanged |
| LoggerLabels.CollapseWhitespaceNoOp | logger/app.js:1772 | text with plain single spaces only is left unchanged |
| LoggerLabels.SanitizeText | logger/app.js:1768-1774 | the result is clean (no markup, no space runs, trimmed) and no longer than the input |
| LoggerLabels.SanitizeTextIdempotent | logger/app.js:1768-1774 | sanitising a sanitised label changes nothing |
| LoggerLabels.SanitizeTextOfClean | logger/app.js:1768-1774 | every clean string is a fixed point |
| LoggerLabels.NormalizeLabel | logger/app.js:105-107 | the registry key is no longer than the label |
| LoggerLabels.NormalizeCleanEmpty | logger/app.js:105-107 | a sanitised label has an empty key exactly when it is empty |
| LoggerLabels.NormalizeSuffixed | logger/app.js:122 | the key of `${base}_${k}` is the key-cased, left-trimmed base followed by `_k` |
| LoggerLabels.SuffixedKeysInjective | logger/app.js:122 | distinct retry indices give distinct registry keys |
| LoggerLabels.SuffixedKeyNotBase | logger/app.js:119-123 | no retry candidate has the base's own key |
| LoggerLabels.CandidateKeysDistinct | logger/app.js:119-123 | the rounds of the retry loop try pairwise distinct keys |
| LoggerLabels.TakenKeyRegistered | logger/app.js:109-115 | a candidate that is not available has its key registered |
| LoggerLabels.SomeCandidateFree | logger/app.js:121-123 | among the first n + 1 candidates, n the size of the label map, one is free, so the retry loop terminates |
| LoggerLabels.LeastFreeUnique | logger/app.js:121-123 | the first free round is unique |
| LoggerLabels.LeastFree | logger/app.js:121-123 | the round the loop stops at is free, within the first n + 1 rounds (n the size of the label map), and every earlier round is taken |
| LoggerLabels.UniqueLabel | logger/app.js:117-125 | the empty base gives the empty label; otherwise the label returned is available |
| LoggerLabels.MakeUniqueLabel | logger/app.js:117-125 | the loop returns the label `UniqueLabel` describes |
| LoggerLabels.UniqueLabelIsFirstFree | logger/app.js:117-125 | the base when its key is free, else `base_k` for the least free `k` with every smaller `k` taken |
| LoggerLabels.UniqueLabelKeyFree | logger/app.js:117-125 | the key of the returned label is empty or not yet registered |
| LoggerLabels.SearchCandidates | logger/app.js:121-123 | the loop's candidate is the first free one and its round is reported |
| LoggerStore.SeriesIndex | logger/app.js:2668 | the first index whose series has the id, or -1 exactly when no series has it |
| LoggerStore.GroupIndex | logger/app.js:127-129 | the first index whose group has the id, or -1 exactly when no group has it |
| LoggerStore.ActiveGroup | logger/app.js:136-142 | none exactly when there are no groups; the remembered group when it still exists, otherwise the last group |
| LoggerStore.EnsureListsSpec | logger/graph.js:48-53 | `setSeries` keeps every existing point list and adds an empty list for exactly the listed series that had none |
| LoggerStore.AppendPoint | logger/app.js:3247-3256 | the start time is set only when unset, the last time becomes the sample's, the point goes at the end of that series' list and nothing else changes |
| LoggerStore.CreateSeriesRegisters | logger/app.js:1776-1785 | a created series has the next id and a non-empty label whose key was free before and now names it; no other registration changes |
| LoggerStore.NewKeyNonEmpty | logger/app.js:1779-1781 | a unique label made from a clean non-empty base has a non-empty key |
| LoggerStore.AppendSeriesSpec | logger/app.js:2179-2194 | the new series becomes the group's last, homed in that group, with an empty point list; every other group is untouched |
| LoggerStore.OpenGroupSpec | logger/app.js:1797-1821 | the new group is appended last with the next id, one series and an empty list for it, and becomes the active group |
| LoggerStore.GroupIndexAppend | logger/app.js:127-129 | a group pushed with a fresh id is found at the end |
| LoggerStore.RenameRefusesTaken | logger/app.js:2054-2075 | an input that sanitises to nothing is refused, a key owned by another series is refused, and a successful rename registers the new key to the series |
| LoggerStore.RemoveAt | logger/app.js:2682 | `splice(k, 1)` drops exactly element k and keeps the others in order |
| LoggerStore.InsertAt | logger/app.js:2683 | `splice(k, 0, x)` puts x at k and shifts the later elements by one |
| LoggerStore.RemoveSeriesSpec | logger/app.js:2968-2990 | a group keeps at least one series; a refused removal changes nothing, and a removed series leaves no trace in the group, the label map or the auto-series map |
| LoggerStore.RemoveGroupSpec | logger/app.js:2992-3011 | at least one group remains; a refused removal changes nothing, and a removed group takes only its own place and none of its series stays registered |
| LoggerStore.Clamp | logger/app.js:2679 | `Math.max(0, Math.min(i, n))` lies in 0..n and is i when i is already in range |
| LoggerStore.ReorderTarget | logger/app.js:2679-2680 | the landing index of a same-group move stays inside the list |
| LoggerStore.ReorderSpec | logger/app.js:2682-2683 | a reorder is a permutation that puts the moved series at the target and keeps the others in order; moving to its own slot changes nothing |
| LoggerStore.MultisetRemoveAt | logger/app.js:2682 | removing one element takes exactly that element out of the multiset |
| LoggerStore.MultisetInsertAt | logger/app.js:2683 | inserting adds exactly that element to the multiset |
| LoggerStore.RemoveInsert | logger/app.js:2682-2683 | removing what was just inserted gives the list back |
| LoggerStore.MoveSeriesOutcome | logger/app.js:2664-2737 | every refusal (unknown group or series, last series of the source, key owned by another series, same slot) leaves the store unchanged, and no move empties a group |
| LoggerStore.TransferSpec | logger/app.js:2693-2718 | a cross-group move takes the series out of the source, puts it re-homed into the target at the clamped index, and carries its points along |
| LoggerRegistry.RegisteredKeyLands | logger/app.js:3355-3358 | under the registry invariant, a sample whose key is in `labelMap` always finds its group, that group lists the series, and the series carries the sample's key |
| LoggerRegistry.RegisteredAutoFinds | logger/app.js:3366-3371 | under the invariant, a filled `autoSeriesMap` slot always finds its series |
| LoggerRegistry.ListingKeeps | logger/app.js:1787-1795 | the invariant depends on the groups only through their ids and series lists, not on points or times |
| LoggerRegistry.AppendAtListing | logger/app.js:3247-3256 | appending a point changes no group's id or series list |
| LoggerRegistry.AlignListing | logger/app.js:1961-2018 | alignment changes only times |
| LoggerRegistry.TrimGroupsListing | logger/app.js:212-245 | trimming only shortens point lists |
| LoggerRegistry.TrimOldestListing | logger/app.js:212-245 | `trimOldestData` keeps every listing |
| LoggerRegistry.RetryListing | logger/app.js:247-280 | the retry loop of `saveState` keeps every listing |
| LoggerRegistry.SaveKeeps | logger/app.js:247-280 | `saveState` keeps the registry invariant whatever the storage answers |
| LoggerRegistry.TrimOldestKeeps | logger/app.js:212-245 | `trimOldestData` keeps the invariant |
| LoggerRegistry.AlignKeeps | logger/app.js:1961-2018 | `alignGroupsToGlobalTimeline` keeps the invariant |
| LoggerRegistry.AddsOneIds | logger/app.js:1777 | a series added with the next counter value keeps all series ids distinct and within the counter |
| LoggerRegistry.AddsOneKeys | logger/app.js:1782-1783 | the added series owns its fresh key, and every older series and registration is unaffected |
| LoggerRegistry.GrowKeeps | logger/app.js:1776-1785 | a group grown by one created series keeps the invariant |
| LoggerRegistry.AppendSeriesKeeps | logger/app.js:2179-2194 | `appendSeriesToGroup` keeps the invariant |
| LoggerRegistry.AddGroupKeeps | logger/app.js:1797-1821 | a last group created with one fresh series keeps the invariant |
| LoggerRegistry.CreateGroupKeeps | logger/app.js:1797-1821 | `createGroup` keeps the invariant: both counters give fresh ids |
| LoggerRegistry.SameShapeIds | logger/app.js:2070-2071 | a store with the same ids in the same places keeps every id part of the invariant |
| LoggerRegistry.RenameKeeps | logger/app.js:2054-2075 | the label editor keeps the invariant: the key it takes is free or the series' own, and the key it gives up was the series' own |
| LoggerRegistry.RenameOwned | logger/app.js:1787-1795 | after a rename every listed series owns its key |
| LoggerRegistry.RenameNamed | logger/app.js:1787-1795 | after a rename every registration names its series |
| LoggerRegistry.DropsIds | logger/app.js:2968-2990 | after a series is removed the ids stay distinct and within the counters |
| LoggerRegistry.DropsOwned | logger/app.js:2968-2990 | after a series is removed the others keep their keys |
| LoggerRegistry.DropsNamed | logger/app.js:2968-2990 | after a series is removed every remaining registration names a listed series |
| LoggerRegistry.DropsAuto | logger/app.js:2968-2990 | after a series is removed every filled auto slot names a remaining series |
| LoggerRegistry.RemoveSeriesKeeps | logger/app.js:2968-2990 | `removeSeries` keeps the invariant |
| LoggerRegistry.DropsGroupIds | logger/app.js:2992-3011 | after a group is removed the ids stay distinct and within the counters |
| LoggerRegistry.KeyOutsideGroup | logger/app.js:2992-3011 | a series outside the removed group holds none of its keys |
| LoggerRegistry.DropsGroupOwned | logger/app.js:2992-3011 | after a group is removed the remaining series keep their keys |
| LoggerRegistry.DropsGroupNamed | logger/app.js:2992-3011 | after a group is removed every registration and auto slot names a remaining series |
| LoggerRegistry.RemoveGroupKeeps | logger/app.js:2992-3011 | `removeGroup` keeps the invariant |
| LoggerRegistry.ReorderAt | logger/app.js:2682-2683 | each position of a reordered list holds one position of the original and back |
| LoggerRegistry.ReordersIds | logger/app.js:2678-2690 | a same-group reorder keeps the ids distinct |
| LoggerRegistry.ReordersKeys | logger/app.js:2678-2690 | a same-group reorder keeps every key, registration and auto slot valid |
| LoggerRegistry.TransfersMoved | logger/app.js:2703-2711 | the moved series sits at the clamped index of the target, re-homed in the target group |
| LoggerRegistry.TransfersIds | logger/app.js:2693-2718 | a cross-group move keeps the ids distinct and within the counters |
| LoggerRegistry.TransfersOwned | logger/app.js:2695-2707 | after a cross-group move every series owns its key, the moved one re-registered to the target |
| LoggerRegistry.TransfersNamed | logger/app.js:2695-2707 | after a cross-group move every registration names a listed series |
| LoggerRegistry.TransfersAuto | logger/app.js:2693-2718 | after a cross-group move every filled auto slot names a listed series |
| LoggerRegistry.MoveIsReorder | logger/app.js:2678-2690 | a same-group move by `moveSeriesBetweenGroups` is a reorder of that group |
| LoggerRegistry.MoveIsTransfer | logger/app.js:2693-2718 | a successful cross-group move is a transfer of the series with its key |
| LoggerRegistry.MoveSeriesKeeps | logger/app.js:2664-2737 | `moveSeriesBetweenGroups` keeps the invariant in every branch |
| LoggerRegistry.ActiveKeeps | logger/app.js:131-134 | changing the active group keeps the invariant |
| LoggerRegistry.SetAutoKeeps | logger/app.js:3375 | recording a listed series in an `autoSeriesMap` slot keeps the invariant |
| LoggerRegistry.AppendAtKeeps | logger/app.js:3384 | appending a point keeps the invariant |
| LoggerRegistry.ToNewSeriesKeeps | logger/app.js:3359-3364 | a series made for a new label in the active group keeps the invariant |
| LoggerRegistry.ToAutoSeriesKeeps | logger/app.js:3365-3376 | the series of an unlabelled value, found or made and then recorded, keeps the invariant |
| LoggerRegistry.RouteSampleKeeps | logger/app.js:3350-3386 | routing one sample keeps the invariant |
| LoggerRegistry.RouteAllKeeps | logger/app.js:3350-3386 | routing every sample of a line keeps the invariant |
| LoggerRegistry.HandleLineKeeps | logger/app.js:3344-3393 | `handleIncomingLine` keeps the invariant whatever the line holds |
| LoggerRegistry.EmptyRegistered | logger/app.js:1961-2033 | the empty store the page starts from satisfies the invariant |
| LoggerRegistry.RepeatedLabelJoins | logger/app.js:3351-3358 | under the corrected routing, a second sample with a label reaches the series the first one made: one point appended and no series created |
| LoggerRegistry.MarkupLabelJoinsSeries | logger/app.js:3351 | under the corrected routing, two lines carrying `a<b` make at most one series |
| LoggerRange.RangeOfSpec | logger/app.js:1920-1935 | the accumulated range is absent exactly for no times, and otherwise is the least and the greatest time, both attained |
| LoggerRange.RangeOfSnoc | logger/app.js:1930-1931 | one more time extends the range by one `Math.min`/`Math.max` step |
| LoggerRange.Times | logger/app.js:1926 | the times of a point list, position by position |
| LoggerRange.SeriesTimesFrame | logger/app.js:1923-1924 | the times a group ranges over depend only on its series list and point lists |
| LoggerRange.Ranges | logger/app.js:1968-1970 | one range per group, in group order, from the stored pair or the data (always the data under `recalc`) |
| LoggerRange.GlobalMaxSpec | logger/app.js:1971-1975 | `globalMax` is absent exactly when no group has a range, and otherwise is the greatest end, attained by some group |
| LoggerRange.MaxDurationSpec | logger/app.js:1971-1975 | `maxDuration` bounds every present range's duration and is 0 or attained by one of them |
| LoggerRange.Align | logger/app.js:1961-2018 | alignment keeps the number of groups |
| LoggerRange.AlignKeepsContent | logger/app.js:1961-2018 | alignment touches only the four time fields of a group |
| LoggerRange.AlignRecalcTimes | logger/app.js:1938-1948 | after a `recalc` alignment a group's start and last time are the least and greatest of its point times, or both absent when it has none |
| LoggerRange.AlignRecalcDisplay | logger/app.js:1986-2002 | after a `recalc` alignment every group with points shows the same display start: the latest end over all groups minus the longest duration |
| LoggerRange.LatestGroupInWindow | logger/app.js:1986-2002 | the group with the latest end lies inside the shared window, and every group ends by `globalMax` |
| LoggerRange.OldGroupStartsBeforeWindow | logger/app.js:1986 | the shared display start does not keep every group in view: groups over 0..10 and 100..105 both start their display at 95 |
| LoggerRange.SampleTimes | logger/app.js:1923-1924 | a one-series sample group ranges over exactly its listed times |
| LoggerRange.RangeOfPair | logger/app.js:1920-1935 | two ordered times give the range between them |
| LoggerRange.TwoRanges | logger/app.js:1971-1975 | for two ranges, `globalMax` and `maxDuration` are the later end and the longer duration |
| LoggerRange.AlignRecalcIdempotent | logger/app.js:1961-2018 | aligning twice under `recalc` is aligning once |
| LoggerIngest.SampleKey | logger/app.js:3351 | a sample without a label has the empty key |
| LoggerIngest.FindSeries | logger/app.js:2739-2745 | the first group listing the id and the series' index in it; none exactly when no group lists it |
| LoggerIngest.SetAt | logger/app.js:3375 | assigning past the end of a JavaScript array grows it to the index, leaving holes; other slots keep their values |
| LoggerIngest.AutoTarget | logger/app.js:3366-3371 | a filled `autoSeriesMap` slot resolves to that series while some group lists it, and only then |
| LoggerIngest.GroupExtendsRefl | logger/app.js:3384 | a group extends itself |
| LoggerIngest.GroupExtendsTrans | logger/app.js:3384 | extension of a group by points stamped `ts` composes |
| LoggerIngest.ExtendsTrans | logger/app.js:3350-3386 | extension of the group list composes |
| LoggerIngest.ExtendsAt | logger/app.js:3384 | replacing one group by an extension of it extends the list |
| LoggerIngest.AppendPointExtends | logger/app.js:3247-3256 | appending a point stamped `ts` extends the group |
| LoggerIngest.AppendSeriesExtends | logger/app.js:2179-2194 | adding a series only adds an empty point list |
| LoggerIngest.AppendAtExtends | logger/app.js:3384 | appending at a group index extends the list |
| LoggerIngest.ExtendsRefl | logger/app.js:3350-3386 | a group list extends itself |
| LoggerIngest.ToNewSeriesExtends | logger/app.js:3359-3364 | routing to a new series extends the list |
| LoggerIngest.ToAutoSeriesExtends | logger/app.js:3365-3376 | routing an unlabelled value extends the list |
| LoggerIngest.RouteSampleExtends | logger/app.js:3350-3386 | routing one sample extends the list |
| LoggerIngest.RouteAllExtends | logger/app.js:3350-3386 | routing all samples of a line extends the list |
| LoggerIngest.HandleLineStampsOnce | logger/app.js:3344-3393 | after one line every point list starts with the points it had, and every new point carries the line's single timestamp |
| LoggerIngest.RouteRegistered | logger/app.js:3355-3358 | a sample with a registered key lands in the registered series when its group still lists it, and nothing else changes |
| LoggerIngest.AppendAtAdded | logger/app.js:2179-2194 | a series added for a value is the group's new last series with the next id, and its list ends with that value |
| LoggerIngest.RouteNewLabel | logger/app.js:3359-3364 | a sample with a new key becomes the first point of a new series of the active group, which stays active |
| LoggerIngest.RouteUnlabelledReuses | logger/app.js:3365-3371 | an unlabelled sample at index i goes to the series in `autoSeriesMap[i]` while some group lists it |
| LoggerIngest.RouteUnlabelledCreates | logger/app.js:3372-3376 | otherwise it becomes the first point of a new `auto_{i+1}` series of the first group, recorded in `autoSeriesMap[i]` |
| LoggerIngest.MarkupLabelSplitsSeries | logger/app.js:3351-3364 | as written, a label such as `a<b` is looked up raw but registered sanitised, so every line carrying it makes another series |
| LoggerIngest.SanitizedSample | logger/app.js:1779 | sanitising a sample's label keeps its value, index and presence of a label |
| LoggerIngest.IntendedKey | logger/app.js:1779-1781 | the corrected lookup key is the normalised sanitised label |
| LoggerIngest.IntendedRouteRegisters | logger/app.js:3351-3364 | under the corrected routing a labelled sample with a non-empty key leaves that key registered and makes at most one series |
| LoggerIngest.NewLabelKeepsOut | logger/app.js:1779-1783 | adding a series for `a<b` registers a key other than `a<b` and advances the counter by one |
| LoggerIngest.MarkupKey | logger/app.js:105-107 | `a<b` normalises to itself |
| LoggerIngest.CleanKeyHasNoMarkup | logger/app.js:1776-1785 | the key of a created series holds no markup character |
| LoggerIngest.UniqueLabelNoMarkup | logger/app.js:117-125 | a unique label made from a clean base holds no markup character |
| LoggerIngest.NormalizeKeepsMarkupFree | logger/app.js:105-107 | lower-casing and trimming add no markup character |
| LoggerParse.MemberSamplesSpec | logger/app.js:3333-3340 | every sample of an object comes from a numeric member, labelled with its key, in key order, and every numeric member gives one |
| LoggerParse.ArraySamplesSpec | logger/app.js:3325-3331 | array items are labelled `value_` with their one-based position; non-numbers leave gaps in the numbering, not samples |
| LoggerParse.ParseMembers | logger/app.js:3334-3339 | the object loop computes exactly the member samples |
| LoggerParse.ParseItems | logger/app.js:3326-3330 | the array loop computes exactly the array samples |
| LoggerParse.ParseJsonPayload | logger/app.js:3319-3342 | `parseJsonPayload`: a bare number, the array branch or the object branch, and nothing for other values |
| LoggerParse.SplitParts | logger/app.js:3285 | splitting always yields at least one piece |
| LoggerParse.SplitPartsSpec | logger/app.js:3285 | splitting on `;` and `,` yields one piece more than there are separators, none holding a separator |
| LoggerParse.TrimmedParts | logger/app.js:3285 | after trimming and `filter(Boolean)` no part is empty |
| LoggerParse.IndexOf | logger/app.js:3292 | `indexOf` is the first position of the character, or -1 exactly when it does not occur |
| LoggerParse.PartReading | logger/app.js:3290-3298 | a label before the first `/` is never blank (a blank one is `null`) |
| LoggerParse.PartSamplesStep | logger/app.js:3289-3307 | one step of the parts loop |
| LoggerParse.PartSamplesSpec | logger/app.js:3289-3307 | exactly the parts with a finite value are kept, in order, and the unlabelled ones are numbered 0, 1, … in order of appearance |
| LoggerParse.NumberedSpecOf | logger/app.js:3300-3305 | the numbered samples carry their readings' labels and values, and the unlabelled ones consecutive indices |
| LoggerParse.PartSamplesNumbered | logger/app.js:3289-3307 | the parts loop numbers the finite readings |
| LoggerParse.ReadingsStep | logger/app.js:3298-3299 | a part adds a reading exactly when its value is a finite number |
| LoggerParse.NumberedSpec | logger/app.js:3300-3305 | numbering keeps length, labels and values, and counts only unlabelled readings |
| LoggerParse.OnlyBracesReachJson | logger/app.js:3276-3283 | only a brace-wrapped line reaches `JSON.parse` |
| LoggerParse.BracedLineSamples | logger/app.js:3276-3283 | a brace-wrapped line gives nothing when JSON parsing fails, and otherwise the object's numeric members |
| LoggerParse.UnbracedLineSamples | logger/app.js:3285-3316 | an unbraced line gives the samples of its parts, and only when there are none is the whole line read as one unlabelled number |
| LoggerParse.LabelledNonNumberFallsBack | logger/app.js:3309-3314 | the line `5/x` yields no part sample and falls back to logging 5 unlabelled |
| LoggerParse.FallsBackToWholeLine | logger/app.js:3309-3314 | a line without numeric parts is read whole by `parseFloat` at index 0 |
| LoggerParse.SplitWithoutSeparator | logger/app.js:3285 | a piece without separators splits to itself |
| LoggerParse.FiveSlashX | logger/app.js:3290-3298 | the part `5/x` gives no reading |
| LoggerParse.NoDigitsNoNumber | logger/app.js:3298 | `parseFloat("x")` is not a number |
| LoggerParse.FiveSlashXNumber | logger/app.js:3310 | `parseFloat("5/x")` is 5 |
| LoggerParse.ParseParts | logger/app.js:3286-3307 | the parts loop with its running `unlabeledIndex` computes exactly the numbered part samples |
| LoggerParse.ParseIncoming | logger/app.js:3272-3317 | `parseIncoming` computes exactly the specification function of the whole line |
| LoggerPersist.KeepFrom | logger/app.js:223 | filtering never lengthens a point list |
| LoggerPersist.KeepFromSpec | logger/app.js:223 | the filter keeps exactly the points at or after the cutoff, and loses one whenever some point is earlier |
| LoggerPersist.SliceOf | logger/app.js:216-233 | `Math.max(1, Math.floor(n * ratio))` is at least 1 |
| LoggerPersist.ApplyCut | logger/app.js:223-234 | a cut never lengthens a series |
| LoggerPersist.TrimSeriesFrame | logger/app.js:220-226 | point lists of series that are not listed are untouched |
| LoggerPersist.TrimSeriesSpec | logger/app.js:220-226 | with distinct ids every listed series becomes its own cut, an absent list stays absent, and the total loss bounds each series' loss |
| LoggerPersist.DistinctInit | logger/app.js:1777 | dropping the last series keeps ids distinct |
| LoggerPersist.TrimGroups | logger/app.js:218-240 | the group fold keeps the number of groups |
| LoggerPersist.TrimGroupsSpec | logger/app.js:218-240 | each group's point lists are its own series fold, and the total loss bounds each group's loss |
| LoggerPersist.GlobalTimesWitness | logger/app.js:190-210 | every time of the global range comes from a point of a listed series of some group |
| LoggerPersist.SeriesTimesWitness | logger/app.js:196-203 | every time of a group comes from a point of one of its listed series |
| LoggerPersist.CutLoses | logger/app.js:223-235 | a series owning a point the cut drops reports a loss |
| LoggerPersist.TrimGroupsLoses | logger/app.js:212-245 | a cut dropping a point of some listed series makes the fold report a loss |
| LoggerPersist.TrimOldestRemovesIffData | logger/app.js:212-245 | `trimOldestData` reports a removal exactly when there was data: the earliest point always falls before the cut, and a count slice drops at least one point |
| LoggerPersist.TrimOldestContents | logger/app.js:215-240 | in time mode every listed series keeps exactly its points at or after `min + max(1, ⌊d·ratio⌋)`; in count mode it loses its first `max(1, ⌊n·ratio⌋)` points |
| LoggerPersist.CutContents | logger/app.js:220-226 | one group's series after a cut, series by series |
| LoggerPersist.SaveSpec | logger/app.js:247-280 | `saveState` trims at most three times at ratios 0.1, 0.2, 0.3 in order, reports a save only for a state storage accepted, stops early only when a trim removed nothing, and leaves the groups alone when the first save succeeds or fails otherwise |
| LoggerPersist.RetrySpec | logger/app.js:255-275 | the retry loop from any attempt behaves as `saveState` promises |
| LoggerApp.RemoveSeriesOpKeeps | logger/app.js:2968-2990 | `removeSeries` with its alignment keeps the registry invariant |
| LoggerApp.RemoveGroupOpKeeps | logger/app.js:2992-3011 | `removeGroup` with its alignment keeps the invariant |
| LoggerApp.MoveSeriesOpKeeps | logger/app.js:2664-2737 | `moveSeriesBetweenGroups` with its alignment keeps the invariant |
| LoggerApp.CreateSeriesIs | logger/app.js:1776-1785 | `createSeries` once its unique label is known: the next id, that label, its key registered |
| LoggerApp.FindSeriesFirst | logger/app.js:2739-2745 | the first group listing an id is the one `findSeriesById` returns |
| LoggerApp.Logger.constructor | logger/app.js:72-80 | the page starts with no groups, an empty label map and auto map, both counters 0, no active group, and the invariant holds |
| LoggerApp.Logger.CreateSeries | logger/app.js:1776-1785 | the fields change as the store function `createSeries` says, and the new series is returned |
| LoggerApp.Logger.AppendSeriesToGroup | logger/app.js:2179-2194 | the new series is pushed onto the group and `setSeries` runs, as the store function says |
| LoggerApp.Logger.CreateGroup | logger/app.js:1797-1821 | the group counter advances, the group opens with the series `sensor_<n>`, and the invariant is kept |
| LoggerApp.Logger.OpenGroup | logger/app.js:1799-1815 | the rest of `createGroup` once its id is taken |
| LoggerApp.Logger.RenameSeries | logger/app.js:2054-2075 | the label editor changes the fields as the store function says and keeps the invariant |
| LoggerApp.Logger.ForgetAuto | logger/app.js:2981-2983 | every `autoSeriesMap` entry naming the series becomes empty, and nothing else changes |
| LoggerApp.Logger.ClearAuto | logger/app.js:2981-2983 | the loop clears exactly the entries naming the id |
| LoggerApp.Logger.ForgetAllSeries | logger/app.js:3000-3005 | every series of the removed group loses its label key and its auto slots |
| LoggerApp.Logger.RemoveSeries | logger/app.js:2968-2990 | `removeSeries` changes the fields as the store operation says and keeps the invariant |
| LoggerApp.Logger.RemoveGroup | logger/app.js:2992-3011 | `removeGroup` changes the fields as the store operation says and keeps the invariant |
| LoggerApp.Logger.AlignGroups | logger/app.js:1961-2018 | the two passes of `alignGroupsToGlobalTimeline` compute the aligned store and keep the invariant |
| LoggerApp.Logger.RangePass | logger/app.js:1968-1976 | the first pass computes each group's range, writes it back, and accumulates `globalMax` and `maxDuration` |
| LoggerApp.Logger.PlacePass | logger/app.js:1977-2017 | the second pass clears or sets each group's display start |
| LoggerApp.Logger.MoveSeriesBetweenGroups | logger/app.js:2664-2737 | the move changes the fields as the store operation says and keeps the invariant |
| LoggerApp.Logger.FindSeriesById | logger/app.js:2739-2745 | the loop over the groups finds the first that lists the id |
| LoggerApp.Logger.Route | logger/app.js:3350-3386 | one sample changes the fields as the routing function says |
| LoggerApp.Logger.HandleIncomingLine | logger/app.js:3344-3393 | `handleIncomingLine` computes the line function on the fields and keeps the invariant |
| LoggerApp.Logger.GroupRange | logger/app.js:1950-1959 | the stored pair when both times are set, otherwise the data range |
| LoggerApp.Logger.GroupRangeFromData | logger/app.js:1918-1936 | the loops compute the least and greatest time over the listed series' points |
| LoggerApp.Logger.GlobalDataRange | logger/app.js:190-210 | the loops compute the range over every group's points |
| LoggerApp.Logger.ExtendBySeries | logger/app.js:196-203 | the series loop extends the range by every listed series' points |
| LoggerApp.Logger.ExtendByPoints | logger/app.js:198-202 | the point loop is the `Math.min`/`Math.max` fold over the times |
| LoggerApp.Logger.TrimGroupData | logger/app.js:220-226 | the inner loop of `trimOldestData` cuts every listed series with points |
| LoggerApp.Logger.TrimAllGroups | logger/app.js:218-240 | the outer loop cuts every group's series |
| LoggerApp.Logger.TrimOldestData | logger/app.js:212-245 | `trimOldestData` computes the trim function on the groups and keeps the invariant |
| LoggerApp.Logger.SaveState | logger/app.js:247-280 | `saveState` computes the save function on the groups and keeps the invariant |
| LoggerColumns.Letters | logger/app.js:628-633 | the bijective base-26 numeral is empty exactly for 0 and uses only `A`–`Z` |
| LoggerColumns.ColumnLabel | logger/app.js:626-635 | every column name is a non-empty run of `A`–`Z` |
| LoggerColumns.ColumnName | logger/app.js:626-635 | the `while` loop prepending one letter per step computes the column name |
| LoggerColumns.LettersValuePositive | logger/app.js:1097-1103 | non-empty uppercase letters have a value of at least 1 |
| LoggerColumns.ColumnLettersToIndex | logger/app.js:1097-1103 | the `for` loop over the character codes computes the column index |
| LoggerColumns.LettersValueOfLetters | logger/app.js:626-635 | reading a numeral back gives its number (with logger/app.js:1097-1103) |
| LoggerColumns.LettersOfLettersValue | logger/app.js:626-635 | writing the value of uppercase letters gives the same letters (with logger/app.js:1097-1103) |
| LoggerColumns.ColumnIndexOfLabel | logger/app.js:626-635 | `columnLettersToIndex` inverts `columnName` on every column index (with logger/app.js:1097-1103) |
| LoggerColumns.ColumnLabelOfIndex | logger/app.js:626-635 | `columnName` inverts `columnLettersToIndex` on every non-empty run of uppercase letters (with logger/app.js:1097-1103) |
| LoggerColumns.ColumnLabelInjective | logger/app.js:626-635 | distinct columns get distinct names |
| LoggerColumns.ColumnLabelSamples | logger/app.js:626-635 | columns 0, 25, 26, 701 and 702 are `A`, `Z`, `AA`, `ZZ` and `AAA` |
| LoggerTable.Dedup | logger/app.js:605-607 | the map's keys are exactly the distinct times, in order of first insertion |
| LoggerTable.DedupSnoc | logger/app.js:605-607 | a new time is added at the end and a repeated one changes nothing |
| LoggerTable.Insert | logger/app.js:617 | insertion keeps a strictly ascending list strictly ascending and adds exactly one element |
| LoggerTable.ConsIncreasing | logger/app.js:617 | a smaller head keeps a list strictly ascending |
| LoggerTable.SortDistinct | logger/app.js:616-617 | sorting the entries gives the distinct times, strictly ascending |
| LoggerTable.ValueAt | logger/app.js:608 | a cell is empty exactly when the series has no point at the time, and otherwise holds one of its values there |
| LoggerTable.ValueAtLast | logger/app.js:608 | a later point at the same time overwrites an earlier one |
| LoggerTable.Blank | logger/app.js:606 | a new row is as wide as the label list and empty |
| LoggerTable.Values | logger/app.js:600-610 | a row holds one cell per series, in series order |
| LoggerTable.Labels | logger/app.js:596 | one label per series, in series order |
| LoggerTable.RowTimes | logger/app.js:597-617 | every sample time of the group gets one row, ascending |
| LoggerTable.TableShape | logger/app.js:595-624 | as many labels as series, one row per distinct time ascending, every row as wide as the series list, and a cell filled exactly when that series has a point at the row's time |
| LoggerTable.TableOffsetsFromEarliest | logger/app.js:612-621 | without `startTime` the first row has offset 0 and offsets strictly increase |
| LoggerTable.Partial | logger/app.js:600-610 | a row under construction is as wide as the series list |
| LoggerTable.BuildGroupTable | logger/app.js:595-624 | the loops over series and points, the map and the sort compute exactly the table the specification function describes |
| LoggerTable.CollectSeries | logger/app.js:602-609 | the points loop of one series keeps the collection invariant |
| LoggerTable.CollectStep | logger/app.js:603-608 | one point entered into the map keeps the collection invariant |
| LoggerTable.CollectKeys | logger/app.js:604-607 | the map keys and the running minimum follow the times seen |
| LoggerTable.CollectRows | logger/app.js:605-608 | every row in the map is the partial row of its time |
| LoggerTable.PartialBlank | logger/app.js:606 | a time not seen yet has a blank row |
| LoggerTable.PartialStep | logger/app.js:608 | one point fills its own cell of its own time's row |
| LoggerTable.NextSeries | logger/app.js:600 | after a series' last point the next series starts from the same rows |
| LoggerTable.EndOfCollection | logger/app.js:600-610 | after the last series every row is the full row of values |
| LoggerXlsx.EscapeXml | logger/app.js:529-536 | escaped text holds no markup character and is never shorter |
| LoggerXlsx.ReplaceAllAppend | logger/app.js:531 | a global replacement distributes over concatenation |
| LoggerXlsx.ReplaceAllAbsent | logger/app.js:531 | replacing an absent character changes nothing |
| LoggerXlsx.ReplaceAllOne | logger/app.js:531 | on one character, a replacement is the replacement text or the character |
| LoggerXlsx.ReplaceChainAppend | logger/app.js:530-535 | the five chained replacements distribute over concatenation |
| LoggerXlsx.ReplaceChainChar | logger/app.js:530-535 | on one character the chain is that character's escape: later steps leave earlier replacements alone |
| LoggerXlsx.ChainRest | logger/app.js:532-535 | the steps after the one that produced an escape change nothing in it |
| LoggerXlsx.EscapeXmlIsReplaceChain | logger/app.js:529-536 | because `&` is replaced first, the chain of five `.replace` calls is the one-pass substitution |
| LoggerXlsx.UnescapeChar | logger/app.js:529-536 | a reader turns each escape back into its character |
| LoggerXlsx.PrefixOf | logger/app.js:529-536 | a prefix is found at the start of the text it begins |
| LoggerXlsx.DiffersAt | logger/app.js:529-536 | a text differing from a prefix at one place does not start with it |
| LoggerXlsx.UnescapeEscapeXml | logger/app.js:529-536 | an XML reader recovers exactly the text `escapeXml` was given |
| LoggerXlsx.FixedTwo | logger/app.js:524 | `toFixed(2)` gives the integer part, a dot and two digits |
| LoggerXlsx.TrailingZeros | logger/app.js:525 | the count of zeros that end a text |
| LoggerXlsx.StripZeros | logger/app.js:525 | `.replace(/\.?0+$/, '')` removes exactly the trailing zeros and the dot before them, if any |
| LoggerXlsx.FormatSeconds | logger/app.js:521-527 | the corrected formatter always ends in `s` after at least one character |
| LoggerXlsx.NatToStringLast | logger/app.js:524 | the last digit of a numeral is the number mod 10 |
| LoggerXlsx.NatToStringSmall | logger/app.js:524 | a digit's numeral is that digit |
| LoggerXlsx.FormatSecondsTenSeconds | logger/app.js:521-527 | as written, 10 s is written `1s`; the corrected formatter writes `10s` |
| LoggerXlsx.FormatWholeSeconds | logger/app.js:524-526 | for whole seconds the written helper strips the zeros of the integer numeral too |
| LoggerXlsx.DropTens | logger/app.js:525 | dropping the trailing zeros of a number keeps it positive and not a multiple of ten |
| LoggerXlsx.StripZerosOfDigits | logger/app.js:525 | on a plain numeral the stripping is the cut before the trailing zeros |
| LoggerXlsx.StripZerosOfNatToString | logger/app.js:525 | stripping a positive numeral gives the numeral of the number without its trailing zeros |
| LoggerXlsx.FormatWholeSecondsAsWritten | logger/app.js:521-527 | as written, a positive whole number of seconds loses its zeros: 120 s becomes `12s` |
| LoggerXlsx.FormatFractionalSeconds | logger/app.js:521-527 | off whole seconds the written and the corrected formatter agree |
| LoggerXlsx.FormatSecondsAsWrittenDiffers | logger/app.js:521-527 | the two disagree exactly on positive whole multiples of ten seconds |
| LoggerXlsx.ReplaceForbidden | logger/app.js:591 | each of `[ ] * / \ : ?` becomes `_` and every other character stays |
| LoggerXlsx.SafeSheetName | logger/app.js:588-593 | a sheet name has 1 to 31 characters and none of the forbidden ones |
| LoggerXlsx.SafeSheetNameCases | logger/app.js:588-593 | a clean valid name is kept, an empty one becomes `Group n`, a long one is cut at 31 |
| LoggerXlsx.ConcatSnoc | logger/app.js:654 | joining one more part appends it |
| LoggerXlsx.SheetRows | logger/app.js:647-675 | a sheet has an empty row 1, the header row 2 and one row per data row |
| LoggerXlsx.ValueCellsSnoc | logger/app.js:663-667 | one more value adds its cell only when present |
| LoggerXlsx.DataCellsStep | logger/app.js:663-667 | one step of the value loop: a present value adds its number cell, a missing one nothing |
| LoggerXlsx.RenderCellsSnoc | logger/app.js:663-667 | rendering one more cell appends its XML |
| LoggerXlsx.RenderRowsSnoc | logger/app.js:668 | rendering one more row appends its XML |
| LoggerXlsx.BuildDataCells | logger/app.js:660-667 | the cells of a data row: its time as `formatSeconds` writes it, then a number cell per present value |
| LoggerXlsx.PushValueCells | logger/app.js:663-667 | the value loop pushes one cell per present value |
| LoggerXlsx.SheetStart | logger/app.js:649-655 | rows 1 and 2 of the sheet |
| LoggerXlsx.SheetStep | logger/app.js:658-670 | data row i renders as sheet row i + 3 |
| LoggerXlsx.BuildSheetXml | logger/app.js:647-675 | `buildSheetXml` writes exactly the worksheet of the table's rows |
| LoggerXlsx.PushDataRows | logger/app.js:658-670 | the data row loop pushes one rendered row per table row |
| LoggerXlsx.BuildWorkbookRelsXml | logger/app.js:692-712 | one worksheet relationship per sheet, then the styles relationship |
| LoggerXlsx.BuildContentTypesXml | logger/app.js:725-745 | `[Content_Types].xml` with one override per sheet |
| LoggerXlsx.ConcatAppend | logger/app.js:654 | joining concatenated lists is concatenating their joins |
| LoggerXlsx.ConcatContains | logger/app.js:654 | each joined part occurs in the joined text |
| LoggerXlsx.RelIdInjective | logger/app.js:681-697 | relationship ids `rId<n>` are one-to-one |
| LoggerXlsx.SheetPathOfTarget | logger/app.js:1302 | `parseXlsx` resolves each sheet target to the ZIP name the exporter gives it |
| LoggerXlsx.PackagePartsAgree | logger/app.js:677-745 | for every sheet, the workbook, its relationships, the content types and the ZIP name agree with each other (with logger/app.js:1302) |
| LoggerXlsx.SheetNames | logger/app.js:863-867 | one sheet name per group, in group order |
| LoggerXlsx.SheetTexts | logger/app.js:863-867 | one worksheet per group, in group order |
| LoggerXlsx.Encode | logger/app.js:800-801 | one ZIP entry per part, name and data encoded as UTF-8 |
| LoggerXlsx.FixedParts | logger/app.js:869-875 | five fixed parts |
| LoggerXlsx.SheetParts | logger/app.js:877-879 | one entry per worksheet |
| LoggerXlsx.PackageParts | logger/app.js:869-879 | the fixed parts, then one entry per sheet |
| LoggerXlsx.XlsxEntries | logger/app.js:862-882 | the export has five entries more than there are groups |
| LoggerXlsx.BuildSheets | logger/app.js:863-867 | the `map` over the groups computes each sheet's name and worksheet |
| LoggerXlsx.BuildEntries | logger/app.js:869-879 | the entry list is the five fixed parts and then one per sheet |
| LoggerXlsx.PushSheets | logger/app.js:877-879 | the `entries.push` loop appends one entry per worksheet |
| LoggerXlsx.BuildXlsx | logger/app.js:862-882 | `buildXlsx` writes exactly the ZIP image of the workbook's entries |
| LoggerXlsx.Utf8AsciiInjective | logger/app.js:538-540 | ASCII text has one UTF-8 encoding per string |
| LoggerXlsx.NatToStringAscii | logger/app.js:878 | numerals are ASCII |
| LoggerXlsx.AsciiAppend | logger/app.js:878 | ASCII is closed under concatenation |
| LoggerXlsx.SheetPartNameAscii | logger/app.js:878 | sheet part names are ASCII |
| LoggerXlsx.Infix | logger/app.js:878 | texts with the same prefix and suffix are equal when the whole texts are |
| LoggerXlsx.SheetPartNameInjective | logger/app.js:878 | distinct sheets get distinct encoded ZIP names |
| LoggerXlsx.SheetPartNameTextInjective | logger/app.js:878 | distinct sheets get distinct ZIP names |
| LoggerXlsx.SheetReadBack | logger/app.js:862-882 | reading an archive whose entries end with the worksheets gives each worksheet's UTF-8 text back under the name its relationship resolves to (with logger/app.js:1169-1206) |
| LoggerXlsx.XlsxSheetReadBack | logger/app.js:862-882 | the archive `buildXlsx` writes holds each group's worksheet where `parseXlsx` looks for it (with logger/app.js:1302) |
| LoggerSheets.Blanks | logger/app.js:1063-1066 | the padding loop pushes exactly n empty cells |
| LoggerSheets.WorksheetRow | logger/app.js:1055-1073 | a SpreadsheetML row has at least one cell per `<Cell>` |
| LoggerSheets.ParseWorksheetRow | logger/app.js:1055-1073 | the `forEach` and its padding loop compute exactly the row the specification function describes |
| LoggerSheets.WorksheetRowPrefix | logger/app.js:1059-1071 | one more `<Cell>` adds its padding and its text |
| LoggerSheets.WorksheetRowDense | logger/app.js:1059-1071 | without `ss:Index` the cells are the data texts in order |
| LoggerSheets.WorksheetRowIndexed | logger/app.js:1060-1066 | cells with increasing one-based indexes land exactly at them, every other position empty, the row ending at the last |
| LoggerSheets.IndexedPrefix | logger/app.js:1060-1066 | the index conditions carry over to the cells before the last |
| LoggerSheets.GapOfIndex | logger/app.js:1062-1066 | the padding before an indexed cell brings it to its index |
| LoggerSheets.IndexedCellsPlacedLength | logger/app.js:1060-1070 | a placed row ends at its last index |
| LoggerSheets.CellPlaceStep | logger/app.js:1060-1070 | padding and the next cell keep the placement of the cells before |
| LoggerSheets.StepKeepsCells | logger/app.js:1060-1070 | after a step every cell sits at its index |
| LoggerSheets.StepBlanks | logger/app.js:1060-1070 | after a step every position without a cell is empty |
| LoggerSheets.StripDigits | logger/app.js:1128 | removing digits leaves no digit and never lengthens |
| LoggerSheets.StripDigitsAppend | logger/app.js:1128 | removing digits distributes over concatenation |
| LoggerSheets.StripDigitsKeeps | logger/app.js:1128 | a digit-free text is kept |
| LoggerSheets.StripDigitsDrops | logger/app.js:1128 | a numeral vanishes |
| LoggerSheets.RefLetters | logger/app.js:638 | the letters of an A1 reference the exporter writes are its column's name (with logger/app.js:1128) |
| LoggerSheets.CellColumnOfRef | logger/app.js:1127-1130 | a cell the exporter writes is read back in the column it was written to |
| LoggerSheets.PlaceCells | logger/app.js:1126-1149 | after placing cells, the array is one past its last filled index, and empty exactly for no cells |
| LoggerSheets.PlaceCellsSnoc | logger/app.js:1149 | one more cell is one more assignment |
| LoggerSheets.Dense | logger/app.js:1151 | `cells.map(cell => cell ?? '')` keeps the length |
| LoggerSheets.RowCells | logger/app.js:1123-1151 | a row's cells are as long as the placed array |
| LoggerSheets.RowCellsAt | logger/app.js:1126-1151 | cells with increasing columns land exactly there, every other position empty, the row ending at the last |
| LoggerSheets.PlaceCellsAt | logger/app.js:1126-1149 | the placed array ends at the last column and holds each cell's text at its column |
| LoggerSheets.PlacedLength | logger/app.js:1126-1149 | the placed array ends at the last column |
| LoggerSheets.PlacedValues | logger/app.js:1126-1149 | each cell's text is at its column |
| LoggerSheets.PlacedKeys | logger/app.js:1126-1149 | only the cells' own columns are filled |
| LoggerSheets.PlaceNamed | logger/app.js:1149 | placing a cell assigns its text to its column and grows the length as an array assignment does |
| LoggerSheets.PlaceRows | logger/app.js:1122-1152 | every placed row index is below the length |
| LoggerSheets.Compact | logger/app.js:1153 | `rows.filter(Boolean)` never lengthens |
| LoggerSheets.ParseSheetXmlRows | logger/app.js:1116-1155 | the two `forEach` loops compute exactly the rows the specification function describes |
| LoggerSheets.ParseRowCells | logger/app.js:1126-1150 | the cells loop places each cell at its column |
| LoggerSheets.PlaceCellsPrefix | logger/app.js:1126-1150 | the cells loop processes cells one at a time in order |
| LoggerSheets.PlaceRowsPrefix | logger/app.js:1122-1152 | the rows loop processes rows one at a time in order |
| LoggerSheets.SheetRowsInOrder | logger/app.js:1122-1153 | rows numbered by their position, or unnumbered, come back as they are, in order |
| LoggerSheets.PlaceRowsInOrder | logger/app.js:1122-1152 | such rows fill every index below their count |
| LoggerSheets.PlaceRowAt | logger/app.js:1152 | the next row goes at the next index |
| LoggerSheets.CompactAll | logger/app.js:1153 | with no hole the filter keeps every row |
| LoggerSheets.HeaderReadBack | logger/app.js:650-653 | the exported header row reads back as `time` followed by the labels (with logger/app.js:1116-1155) |
| LoggerSheets.DataPlaced | logger/app.js:660-667 | the cells the exporter writes for a data row are placed with the time in column 0 and each present value after its label's position (with logger/app.js:1126-1149) |
| LoggerSheets.PlacedDataSnoc | logger/app.js:663-667 | one more value keeps that placement |
| LoggerSheets.PlaceNumber | logger/app.js:643-644 | a number cell reads back as its value text (with logger/app.js:1144-1146) |
| LoggerSheets.DataRowReadBack | logger/app.js:658-670 | an exported data row reads back as its time text and then each present value's text, blanks empty (with logger/app.js:1116-1155) |
| LoggerSheets.RelsMap | logger/app.js:1157-1167 | the relationship map holds only non-empty ids and targets |
| LoggerSheets.ParseWorkbookRels | logger/app.js:1157-1167 | the `forEach` filling the `Map` computes the relationship map |
| LoggerSheets.RelsMapLookup | logger/app.js:1162-1165 | an id is mapped exactly when some relationship has it with a target, and to the last such target |
| LoggerSheets.ExportedRels | logger/app.js:692-712 | the exporter writes one relationship per sheet and one for the styles |
| LoggerSheets.SheetPartOf | logger/app.js:1296-1302 | a sheet without a relationship target is an error naming the sheet |
| LoggerSheets.ExportedSheetPart | logger/app.js:681 | in an exported workbook the i-th sheet is found at the part it was written to (with logger/app.js:697-699, 1298-1302) |
| LoggerRows.Normalize | logger/app.js:1023-1025 | normalising keeps every row and every cell, trimming each |
| LoggerRows.Positions | logger/app.js:1031 | the positions kept by `filter(Boolean)`, ascending, exactly those flagged |
| LoggerRows.PositionsAll | logger/app.js:1031 | with nothing filtered, every position is kept |
| LoggerRows.Kept | logger/app.js:1031 | one flag per header cell after the first |
| LoggerRows.LabelColumns | logger/app.js:1031 | the header positions whose cell sanitises to a non-empty label |
| LoggerRows.LabelsOf | logger/app.js:1031 | one label per kept position, each non-empty and clean |
| LoggerRows.Values | logger/app.js:1040-1043 | one value per label |
| LoggerRows.ReadRow | logger/app.js:1036-1044 | a kept data row has a non-negative time and one value per label |
| LoggerRows.Outcomes | logger/app.js:1034-1046 | one outcome per data row |
| LoggerRows.Collect | logger/app.js:1034-1046 | the first row with a bad time rejects the table, otherwise the kept rows come in order |
| LoggerRows.DataRows | logger/app.js:1034-1046 | every data row read has a non-negative time and one value per label |
| LoggerRows.CollectWellFormed | logger/app.js:1034-1046 | collecting keeps the rows well formed |
| LoggerRows.Identity | logger/app.js:1040-1041 | the value columns as written are 0, 1, …, n − 1 |
| LoggerRows.ValueColumns | logger/app.js:1040-1041 | one value column per kept label |
| LoggerRows.Table | logger/app.js:1022-1048 | a table that is read keeps its name, has at least one label, every label clean and non-empty, and every row well formed |
| LoggerRows.ValueColumnOfLabel | logger/app.js:1031-1041 | as written, the value of kept label i comes from column i + 1; the corrected reader takes it from the label's own column |
| LoggerRows.ParseRowsToTableLoop | logger/app.js:1022-1048 | the `for` loop over the data rows computes exactly the table as written |
| LoggerRows.CollectSkip | logger/app.js:1037 | a blank row is skipped |
| LoggerRows.CollectKeep | logger/app.js:1038-1045 | a kept row is appended |
| LoggerRows.CollectReject | logger/app.js:1039 | a bad time rejects the table |
| LoggerRows.CollectAppend | logger/app.js:1034-1046 | reading rows in two pieces gives the rows of the pieces, in order |
| LoggerRows.CollectErrExtends | logger/app.js:1039 | after a rejection, later rows do not matter |
| LoggerRows.OutcomesAppend | logger/app.js:1034-1046 | the outcomes of rows in pieces are the outcomes of the pieces |
| LoggerRows.BlankRowSkipped | logger/app.js:1037 | a blank row anywhere after the header changes nothing |
| LoggerRows.NormalizeInserted | logger/app.js:1023-1025 | normalising with an inserted blank row inserts a blank normalised row |
| LoggerRows.SameHeaderSameData | logger/app.js:1022-1048 | the same header and the same data outcome give the same table |
| LoggerRows.BlankOutcomes | logger/app.js:1037 | a blank row drops out of the data rows |
| LoggerRows.CollectAllKept | logger/app.js:1034-1046 | when every row is kept there is one parsed row per data row, in order |
| LoggerRows.ParseRowsToTableShiftsColumns | logger/app.js:1031-1041 | with header `time,,a` and row `1,5,7` the written reader gives a = 5 and the corrected one a = 7 |
| LoggerRows.TableOfParts | logger/app.js:1022-1048 | the table from a known header, labels, columns and data rows |
| LoggerRows.ParseRowsToTableAgreesWithoutGaps | logger/app.js:1031-1041 | without blank header cells the written and the corrected reader agree |
| LoggerRows.SameColumns | logger/app.js:1031-1041 | the two readings agree when the kept labels are exactly the columns in order |
| LoggerCsv.StripBom | logger/app.js:985 | a leading byte-order mark, and only that, is removed |
| LoggerCsv.ParseCsvRows | logger/app.js:980-1020 | the index loop with its `""` look-ahead computes exactly the rows the specification function describes |
| LoggerCsv.DoubleQuotes | logger/app.js:990-992 | doubling quotes never shortens a field |
| LoggerCsv.WriteField | logger/app.js:999-1000 | a field that needs quotes is written starting with a quote |
| LoggerCsv.ScanQuoted | logger/app.js:988-997 | the scanner reads a doubled-quote field back to the closing quote |
| LoggerCsv.ScanBare | logger/app.js:1012-1013 | a bare field is copied into the open field |
| LoggerCsv.ScanField | logger/app.js:986-1014 | one written field reads back as itself |
| LoggerCsv.ScanQuotedField | logger/app.js:999-1000 | an opening quote enters the quoted state, then the field reads back |
| LoggerCsv.EolStart | logger/app.js:1004-1011 | a line ending never starts with a quote |
| LoggerCsv.ScanFields | logger/app.js:1001-1008 | a written record with its line ending is appended as one row |
| LoggerCsv.ScanEol | logger/app.js:1004-1011 | the line ending after the last field closes the row |
| LoggerCsv.ScanWritten | logger/app.js:986-1014 | written records read back after the rows already finished |
| LoggerCsv.WrittenStart | logger/app.js:985 | written text never starts with a byte-order mark |
| LoggerCsv.ConcatNoBom | logger/app.js:985 | texts not starting with a mark concatenate to one not starting with it |
| LoggerCsv.FieldNoBom | logger/app.js:985 | a written field does not start with a mark |
| LoggerCsv.FieldsNoBom | logger/app.js:985 | a written record does not start with a mark |
| LoggerCsv.CsvRoundTrip | logger/app.js:980-1020 | reading written records gives back every record and field, with LF or CRLF endings, with or without a leading byte-order mark |
| LoggerDecode.ParseTimeToSec | logger/app.js:971-978 | a time read is a non-negative number of seconds, and blank text reads as none |
| LoggerDecode.LowerNoOp | logger/app.js:972 | lower-casing text without capitals changes nothing |
| LoggerDecode.ParseTimeOfDecimal | logger/app.js:971-978 | a decimal followed by `s` reads back as the decimal |
| LoggerDecode.DecimalWithUnit | logger/app.js:972-974 | a decimal followed by `s` needs neither trimming nor lower-casing, and the suffix comes off |
| LoggerDecode.ParseTimeOfUnit | logger/app.js:972-977 | `parseTimeToSec` of a trimmed lower-case text ending in `s` is `parseFloat` of the rest |
| LoggerDecode.ParseFloatDecimal | logger/app.js:975 | `parseFloat` of `q.ds` is q plus the fraction the digits give |
| LoggerDecode.SecondsClose | logger/app.js:524 | the shown seconds are within half a hundredth of the exact ones |
| LoggerDecode.DecimalAppend | logger/app.js:524 | appending digits and dots keeps a decimal text |
| LoggerDecode.ParseStrippedFixed | logger/app.js:524-525 | the two-decimal form with its zeros stripped reads back as the hundredths it shows (with logger/app.js:975) |
| LoggerDecode.FixedTwoOneDigit | logger/app.js:524 | hundredths ending in one zero are written as the numeral, a dot, a digit and `0` |
| LoggerDecode.StripOneZero | logger/app.js:525 | only the last zero goes when the digit before it is not a zero |
| LoggerDecode.StripDotZeros | logger/app.js:525 | both zeros and the dot go when only zeros follow the dot |
| LoggerDecode.FormatSecondsReadBack | logger/app.js:521-527 | `parseTimeToSec` reads the corrected `formatSeconds` text back as its seconds (with logger/app.js:971-978) |
| LoggerDecode.WholeSecondsReadBack | logger/app.js:521-527 | the same for whole seconds (with logger/app.js:971-978) |
| LoggerDecode.FractionalSecondsReadBack | logger/app.js:521-527 | the same off whole seconds (with logger/app.js:971-978) |
| LoggerDecode.FractionalTextReadBack | logger/app.js:524-526 | a stripped two-decimal text reads back as its hundredths (with logger/app.js:971-978) |
| LoggerDecode.FractionalSeconds | logger/app.js:524 | off whole seconds the shown seconds are the hundredths |
| LoggerDecode.FractionalSecondsText | logger/app.js:524-526 | off whole seconds the text is the stripped two-decimal form and `s` |
| LoggerDecode.ParseTimeStripped | logger/app.js:971-978 | a stripped two-decimal text with `s` reads back as its hundredths |
| LoggerDecode.FormatSecondsAsWrittenReadBackAll | logger/app.js:521-527 | `parseTimeToSec` reads the written `formatSeconds` text back as the seconds it shows (with logger/app.js:971-978) |
| LoggerDecode.ShownSecondsExact | logger/app.js:521-527 | the shown seconds are exact except on positive whole multiples of ten seconds |
| LoggerDecode.FormatSecondsAsWrittenReadBack | logger/app.js:521-527 | as written, 10 s reads back as 1 s; corrected, as 10 s (with logger/app.js:971-978) |
| LoggerImport.SuffixedKeyNonEmpty | logger/app.js:1366-1368 | a suffixed candidate `base_k` always has a non-empty key |
| LoggerImport.SomeFreeIn | logger/app.js:1365-1369 | among the first n + 2 candidates, n the number of keys taken, one is free, so both retry loops end (with logger/app.js:579-582) |
| LoggerImport.FirstFreeIn | logger/app.js:1365-1369 | the first free round up to a bound that has one |
| LoggerImport.LeastFreeIn | logger/app.js:1365-1369 | the round a retry loop stops at is free and every earlier one is taken |
| LoggerImport.FreshName | logger/app.js:1362-1372 | the name a retry loop returns is free (with logger/app.js:576-586) |
| LoggerImport.FreshNameIsFirstFree | logger/app.js:1362-1372 | the base when it is free, otherwise the first free `base_k` (with logger/app.js:576-586) |
| LoggerImport.SearchFree | logger/app.js:1363-1369 | the `while` loop computes the first free candidate |
| LoggerImport.NextRound | logger/app.js:1366-1368 | a taken candidate is not the last round, and the next round is `base_{index+1}` |
| LoggerImport.FirstFreeIsFresh | logger/app.js:1363-1369 | a free round after only taken ones is the one the loop returns |
| LoggerImport.SafeGroupBase | logger/app.js:577 | the base of a group name is non-empty and clean |
| LoggerImport.MakeUniqueGroupName | logger/app.js:576-586 | the name is the first free candidate, its key was not in the set and is added to it |
| LoggerImport.KeysOf | logger/app.js:1370 | every name's key is in the key set |
| LoggerImport.KeysOfMembers | logger/app.js:1370 | every key in the set is some name's key |
| LoggerImport.KeysOfAppend | logger/app.js:1370 | keys of concatenated lists are the union |
| LoggerImport.KeysDistinctAppend | logger/app.js:1362-1372 | key-distinct lists with no key in common concatenate to a key-distinct list |
| LoggerImport.BaseLabels | logger/app.js:1361 | base labels are non-empty and never more than the labels |
| LoggerImport.BaseLabelsClean | logger/app.js:1361 | every base label is sanitised |
| LoggerImport.BaseLabelsOfClean | logger/app.js:1361 | clean non-empty labels pass through unchanged |
| LoggerImport.BaseLabelsSnocFixed | logger/app.js:1361 | a label fixed by sanitising is appended as it is |
| LoggerImport.UniqueLabels | logger/app.js:1362-1372 | one unique label per base label |
| LoggerImport.UniqueLabelsFresh | logger/app.js:1362-1372 | the unique labels have non-empty, pairwise distinct keys none of which was in the set, and each is its base label or a `_k` variant |
| LoggerImport.UniqueLabelsKeys | logger/app.js:1362-1372 | the keys of the unique labels are non-empty and new |
| LoggerImport.UniqueLabelsShape | logger/app.js:1362-1372 | each unique label is its base label or one of its `_k` variants |
| LoggerImport.DedupLabels | logger/app.js:1362-1372 | the label loop gives each label its first free candidate and adds its key to the import-wide set |
| LoggerImport.UniqueLabelsSnoc | logger/app.js:1362-1372 | one round of the label loop appends the next fresh candidate |
| LoggerImport.SeriesIdInjective | logger/app.js:1376 | `series-n` ids are one-to-one |
| LoggerImport.GroupIdInjective | logger/app.js:1374 | `group-n` ids are one-to-one |
| LoggerImport.SeriesFor | logger/app.js:1375-1379 | one series per label |
| LoggerImport.MakeSeries | logger/app.js:1375-1379 | the `map` with `++seriesIndex` numbers the series on from the counter and advances it by their count |
| LoggerImport.SeriesForSnoc | logger/app.js:1375-1379 | one more label adds one more numbered series |
| LoggerImport.SeriesIdsDistinct | logger/app.js:1375-1379 | the series of one group have distinct ids |
| LoggerImport.MaxSec | logger/app.js:1381 | `maxSec` is non-negative, bounds every row time, and is 0 or attained |
| LoggerImport.MaxSecOf | logger/app.js:1381 | the `reduce` loop computes `maxSec` |
| LoggerImport.Points | logger/app.js:1388-1394 | a series gets at most one point per row |
| LoggerImport.PointsWithin | logger/app.js:1389 | rows timed in `[lo, hi]` give points stamped in the matching window |
| LoggerImport.EmptyData | logger/app.js:1384-1386 | an empty list for exactly the group's series |
| LoggerImport.PushValues | logger/app.js:1390-1393 | pushing a row adds no key |
| LoggerImport.FillData | logger/app.js:1384-1394 | the `data` object has exactly the group's series as keys |
| LoggerImport.PushValuesAt | logger/app.js:1390-1393 | one row appends at most one point to each series |
| LoggerImport.FillDataAt | logger/app.js:1384-1394 | the entry of series c holds exactly column c's points, in row order |
| LoggerImport.FillGroupData | logger/app.js:1384-1394 | the two loops compute the `data` object |
| LoggerImport.FillDataSnoc | logger/app.js:1388-1394 | one more row extends the data by its pushes |
| LoggerImport.PushRow | logger/app.js:1390-1393 | the `row.values.forEach` loop pushes every number onto its series |
| LoggerImport.GroupSeries | logger/app.js:1361-1379 | one series per base label |
| LoggerImport.GroupsOf | logger/app.js:1360-1407 | one group per table |
| LoggerImport.BuildImportPayload | logger/app.js:1352-1411 | the `forEach` over the tables computes exactly the payload the specification function describes |
| LoggerImport.ImportTable | logger/app.js:1361-1406 | the loop body turns one table into one group and advances the state |
| LoggerImport.GroupsOfSnoc | logger/app.js:1360-1407 | one more table extends the groups by its own round |
| LoggerImport.GroupOfParts | logger/app.js:1361-1406 | the group of a round from the values its body computes |
| LoggerImport.GroupFields | logger/app.js:1399-1406 | a group is its fields |
| LoggerImport.CountersOfParts | logger/app.js:1361-1398 | the state after a round from the values its body computes |
| LoggerImport.CountersFields | logger/app.js:1354-1357 | the state is its fields |
| LoggerImport.LabelsOf | logger/app.js:1378 | one label per series |
| LoggerImport.SeriesForFacts | logger/app.js:1375-1379 | a group's series carry its labels, numbered on from the counter with their palette colours |
| LoggerImport.GroupSeriesFacts | logger/app.js:1361-1379 | a table's series carry its unique labels with keys non-empty, distinct and new |
| LoggerImport.GroupDataFacts | logger/app.js:1381-1394 | a table's `data` has one entry per series, holding its column's points stamped from `now - maxSec * 1000` |
| LoggerImport.PointsEndAtNow | logger/app.js:1381-1389 | rows timed from 0 give points stamped between `now - maxSec * 1000` and `now` |
| LoggerImport.RoundGroup | logger/app.js:1361-1406 | the group a round builds, field by field |
| LoggerImport.RoundIndices | logger/app.js:1374-1379 | a round adds one group and as many series as it built |
| LoggerImport.RoundKeys | logger/app.js:1370 | a round adds the keys of its labels and of its name (with logger/app.js:585) |
| LoggerImport.GroupsOfLast | logger/app.js:1360-1407 | the last table adds the last round |
| LoggerImport.NamesOf | logger/app.js:1396-1397 | one name per group |
| LoggerImport.AllSeriesSnoc | logger/app.js:1375-1379 | all series of one more group |
| LoggerImport.NumberedStep | logger/app.js:1374-1379 | a round numbered on from the counters keeps the numbering |
| LoggerImport.ImportNumbered | logger/app.js:1352-1411 | the import numbers its groups `group-1`, … and its series `series-1`, … across groups, each with its palette colour |
| LoggerImport.LabelsOfAppend | logger/app.js:1378 | labels of concatenated series are concatenated |
| LoggerImport.LabelsStep | logger/app.js:1362-1372 | a round with distinct, non-empty, new keys keeps the labels unique |
| LoggerImport.KeysUniqueAppend | logger/app.js:1362-1372 | two lists of unique non-empty keys, the second new to the first, concatenate to one |
| LoggerImport.ImportLabelsUnique | logger/app.js:1352-1411 | no two series of the import share a label key, and the label set holds exactly their keys |
| LoggerImport.NamesStep | logger/app.js:576-586 | a round with a new name keeps the names unique |
| LoggerImport.ImportNamesUnique | logger/app.js:1352-1411 | no two imported groups share a name key, and the name set holds exactly their keys |
| LoggerImport.GroupsOfPrefix | logger/app.js:1360-1407 | the groups of a prefix of the tables are the prefix of the groups |
| LoggerImport.ImportGroupAt | logger/app.js:1360-1407 | group i is built from table i and the state the earlier rounds left |
| LoggerImport.ImportGroupContents | logger/app.js:1360-1407 | group i is `group-(i+1)`, named uniquely after table i, with one series per base label and one data entry per series holding its column's points |
| LoggerImport.PayloadLastActive | logger/app.js:1409 | the active group after an import is the last imported one, and none without tables |
| LoggerImport.ParsedTableImportable | logger/app.js:1022-1048 | every table `parseRowsToTable` accepts can be imported, and its labels are its base labels (with logger/app.js:1361) |
| LoggerReadBack.Imported | logger/app.js:521-527 | one imported row per exported row, timed at the seconds its written time cell shows (with logger/app.js:1022-1048) |
| LoggerReadBack.SheetImportRoundTrip | logger/app.js:647-675 | importing the worksheet exported for a table gives back its labels, and each row with the seconds its time cell shows and its values, whatever the shared strings and the name (with logger/app.js:1116-1155, 1022-1048) |
| LoggerReadBack.ImportedTimesExact | logger/app.js:521-527 | the times come back exactly if and only if no row sits at a positive whole multiple of ten seconds (with logger/app.js:971-978) |
| LoggerReadBack.ReadSheet | logger/app.js:647-675 | reading an exported sheet gives an empty row, then the header `time` and the labels, then one row per data row (with logger/app.js:1116-1155) |
| LoggerReadBack.ReadSheetRow | logger/app.js:660-667 | data row k is read back as the cells written for it (with logger/app.js:1116-1155) |
| LoggerReadBack.ImportReadRows | logger/app.js:1022-1048 | `parseRowsToTable` on the rows read from an exported sheet gives the table with its labels and imported rows |
| LoggerReadBack.ImportDataRows | logger/app.js:1036-1047 | every data row read from an exported sheet is kept, in order |
| LoggerReadBack.CollectImported | logger/app.js:1036-1047 | rows that are all kept are collected in order |
| LoggerReadBack.SheetNumbers | logger/app.js:647-675 | the exported rows are numbered 1, 2, 3, … in order |
| LoggerReadBack.SheetRowAt | logger/app.js:660-667 | row k + 2 of the sheet is data row k, numbered k + 3 |
| LoggerReadBack.HeaderNormalized | logger/app.js:1024-1029 | the exported header needs no trimming and starts with `time` |
| LoggerReadBack.LabelsReadBack | logger/app.js:1029-1034 | clean non-empty labels are read back as themselves, each from its own column |
| LoggerReadBack.DataOutcome | logger/app.js:1036-1047 | a data row read back is kept with its imported row |
| LoggerReadBack.DataRowImport | logger/app.js:1036-1047 | a data row read back is kept, with the time its cell shows and its values |
| LoggerReadBack.ValuesInOrder | logger/app.js:1040-1041 | values are read from the columns after the time column, in order |
| LoggerReadBack.TimeCellImport | logger/app.js:521-527 | the written time cell is not blank and reads back, trimmed, as the seconds it shows (with logger/app.js:971-978) |
| LoggerReadBack.ValueCellImport | logger/app.js:665-666 | a value cell reads back as the value written, and an absent value as none (with logger/app.js:1040-1041) |
| LoggerReadBack.ParseFloatEmpty | logger/app.js:1041 | an empty cell is not a number |
| LoggerZip.CrcValue | logger/app.js:802-830 | the CRC-32 is stored as an unsigned 32-bit number |
| LoggerZip.LocalFixed | logger/app.js:804-816 | the fixed part of a local header is 30 bytes |
| LoggerZip.LocalHeader | logger/app.js:804-817 | a local header is 30 bytes plus the name |
| LoggerZip.CentralFixed | logger/app.js:821-839 | the fixed part of a central header is 46 bytes |
| LoggerZip.CentralHeader | logger/app.js:821-840 | a central header is 46 bytes plus the name |
| LoggerZip.Eocd | logger/app.js:848-857 | the end record is 22 bytes |
| LoggerZip.LocalPart | logger/app.js:819 | a local part is its header followed by the stored data |
| LoggerZip.Locals | logger/app.js:799-845 | the local parts together are as long as their sizes |
| LoggerZip.Centrals | logger/app.js:799-847 | the central directory is as long as its headers |
| LoggerZip.ZipImage | logger/app.js:859 | the archive is the local parts, the central directory and the end record |
| LoggerZip.BuildZip | logger/app.js:794-860 | the `forEach` over the entries, with the offset it tracks, builds exactly that archive |
| LoggerZip.EntryCrc | logger/app.js:775-802 | the loop computes the CRC-32 stored for the entry |
| LoggerZip.LocalsSnoc | logger/app.js:819-844 | one more entry appends its local part and advances the offset by its size |
| LoggerZip.CentralsSnoc | logger/app.js:839-842 | one more entry appends its central header, which points at the offset before it |
| LoggerZip.SearchFloor | logger/app.js:1172 | the search floor `max(0, n - 22 - 0xffff)` is at most the first position searched |
| LoggerZip.ScanEocd | logger/app.js:1173-1178 | the search finds the highest position holding the end signature, or there is none in the range |
| LoggerZip.FindEocd | logger/app.js:1171-1179 | the end record found fits inside the buffer |
| LoggerZip.ParseZip | logger/app.js:1169-1206 | the method computes the directory the specification function describes, or the error it throws |
| LoggerZip.FindEndRecord | logger/app.js:1171-1178 | the backwards `for` loop finds the same record as the search function |
| LoggerZip.WalkDirectory | logger/app.js:1183-1205 | the `while` loop computes the directory walk |
| LoggerZip.GetZipEntryData | logger/app.js:1208-1218 | only a local header with its signature is read, and the data is `compressedSize` bytes inside the buffer |
| LoggerZip.ReadZipEntry | logger/app.js:1234-1239 | method 0 returns the stored bytes, method 8 the inflater's result, any other method is refused, and a bad header fails first |
| LoggerZip.ReadZipEntryBytes | logger/app.js:1241-1245 | a missing name gives none, and a present one its entry's bytes |
| LoggerZip.ReadLE32Field | logger/app.js:806 | a 32-bit field reads back as written, modulo 2^32 (with logger/app.js:1174) |
| LoggerZip.ReadLE16Field | logger/app.js:807 | a 16-bit field reads back as written, modulo 2^16 (with logger/app.js:1187) |
| LoggerZip.LocalFixedFields | logger/app.js:806-816 | the signature, method, checksum, sizes, name length and extra length of a local header read back as written |
| LoggerZip.CentralFixedFields | logger/app.js:823-839 | the signature, method, checksum, sizes, name, extra and comment lengths and the offset of a central header read back as written |
| LoggerZip.EocdFields | logger/app.js:850-856 | the signature, entry counts, directory size and offset of the end record read back as written |
| LoggerZip.Stored | logger/app.js:1196-1202 | the directory entry for a written entry is stored, with both sizes equal to its data length, at its offset |
| LoggerZip.LocalPartAt | logger/app.js:819-844 | entry k's local part sits at the sum of the earlier parts' sizes |
| LoggerZip.CentralHeaderAt | logger/app.js:842-847 | entry k's central header sits at the sum of the earlier headers' sizes |
| LoggerZip.WalkOneRecord | logger/app.js:1186-1203 | one round of the walk records the entry under its name and skips name, extra field and comment |
| LoggerZip.CentralHeaderReads | logger/app.js:1186-1194 | the walk reads back every field of a central header written for the entry |
| LoggerZip.LocalPartReads | logger/app.js:1211-1216 | `getZipEntryData` reads back the signature, checksum, name and extra lengths of a local part, followed by its data |
| LoggerZip.WalkRecord | logger/app.js:1185-1204 | a record in place adds the stored entry and moves on to the next header |
| LoggerZip.WalkFrom | logger/app.js:1185-1204 | the walk over the directory written from record j on yields the directory of all entries |
| LoggerZip.DirectorySnoc | logger/app.js:1196 | one more entry replaces any earlier one under its name, as `Map.set` does |
| LoggerZip.ZipImageLayout | logger/app.js:859 | the archive holds the local parts, then the central directory, then the end record |
| LoggerZip.RecordInLayout | logger/app.js:830-839 | entry k's central header is where the walk looks and carries its checksum and method 0 |
| LoggerZip.EndFieldsInLayout | logger/app.js:853-856 | the end record gives the entry count, the directory's size and its offset |
| LoggerZip.EndRecordReads | logger/app.js:1174-1182 | the fields `parseZip` reads from a written end record are those written |
| LoggerZip.EndFoundLast | logger/app.js:1173-1177 | the search stops at once at an end record in the last 22 bytes |
| LoggerZip.DirectoryOfLayout | logger/app.js:1169-1206 | `parseZip` on a laid-out archive yields exactly the directory of its entries |
| LoggerZip.DirectoryFromEnd | logger/app.js:1181-1185 | with the end record found, `parseZip` walks the directory that record points at |
| LoggerZip.EntryOfLayout | logger/app.js:1234-1236 | `readZipEntry` on entry k of a laid-out archive returns its bytes |
| LoggerZip.LocalChecksumInLayout | logger/app.js:808-812 | entry k's local header carries its checksum and method 0 |
| LoggerZip.ParseZipOfBuildZip | logger/app.js:794-860 | `parseZip` on `buildZip`'s output yields exactly the directory of the entries, whenever their counts, lengths and offsets fit the fields (with logger/app.js:1169-1206) |
| LoggerZip.DirectoryKeys | logger/app.js:1196 | the directory holds exactly the entries' names |
| LoggerZip.DirectoryLookup | logger/app.js:1196 | a name maps to the entry written last under it, at that entry's offset |
| LoggerZip.EntryDataOfLocalPart | logger/app.js:1208-1218 | `getZipEntryData` on a written local part returns the original data |
| LoggerZip.ZipRoundTrip | logger/app.js:794-860 | every entry written (the last under its name) comes back from `parseZip` stored, both sizes its length, and `readZipEntry` returns its bytes without the inflater (with logger/app.js:1169-1239) |
| LoggerZip.BuildZipCrc | logger/app.js:802-830 | both headers of every entry hold the CRC-32 of its data and method 0 |
| LoggerCrc.TableEntrySamples | logger/app.js:761-771 | entries 0 and 1 of the table are 0 and 0x77073096, and the register value 0x80 gives the polynomial 0xEDB88320 |
| LoggerCrc.TableIndex | logger/app.js:778 | the slot `(crc ^ b) & 0xff` is one of the 256 entries |
| LoggerCrc.CrcFoldAppend | logger/app.js:777-779 | the register after a concatenation is the register after the second part, started from the first |
| LoggerCrc.MakeCrcTable | logger/app.js:761-771 | the two loops fill a fresh 256-entry table whose entry k is k after eight register steps |
| LoggerCrc.ComputeEntry | logger/app.js:764-768 | the inner loop computes table entry n |
| LoggerCrc.ComputeCrc32 | logger/app.js:775-781 | with the module's table, the loop and the final XOR compute `crc32` |
| LoggerCrc.FoldBytes | logger/app.js:776-779 | the loop leaves the register after every byte, started from 0xFFFFFFFF |
| LoggerCrc.Crc32Samples | logger/app.js:775-781 | the CRC-32 of no bytes is 0, and of the byte 0xFF is 0xFF000000 |
| LoggerCrc.Crc32CheckValue | logger/app.js:761-781 | the CRC-32 of the ASCII bytes of "123456789" is 0xCBF43926, the standard check value |
| LoggerCrc.StepDistributes | logger/app.js:766 | one step of the reflected shift register distributes over exclusive or |
| LoggerCrc.StepsXor | logger/app.js:765-767 | any number of register steps is linear over exclusive or |
| LoggerCrc.StepsHigh | logger/app.js:765-767 | eight steps of a register whose low byte is clear only shift it right by eight |
| LoggerCrc.UpdateAgrees | logger/app.js:761-778 | one table update `(crc >>> 8) ^ CRC_TABLE[(crc ^ b) & 0xff]` equals xoring the byte in and taking eight bitwise steps |
| LoggerCrc.FoldAgrees | logger/app.js:776-779 | the table-driven loop over any bytes ends in the same register as the bitwise CRC from the same start |
| LoggerCrc.Crc32IsBitwise | logger/app.js:775-781 | `crc32` equals the bitwise reflected CRC-32 (polynomial 0xEDB88320, initial value and final XOR 0xFFFFFFFF) on every input |
| Graph.LowerBound | logger/graph.js:269-277 | the binary search stops at the first point at or after the target, or at the last point |
| Graph.NearestIndex | logger/graph.js:277-283 | the chosen index is a valid one |
| Graph.FindNearestPoint | logger/graph.js:267-284 | `null` exactly for no points; otherwise a point of the list, on a time-sorted list the one at the nearest index |
| Graph.LowerBoundIsFirst | logger/graph.js:269-277 | an index with every earlier point before the target, and itself at or after it or last, is where the search stops |
| Graph.NearestIsClosest | logger/graph.js:277-283 | on a time-sorted list the chosen point is as close to the target as any point |
| Graph.NearestTieGoesLater | logger/graph.js:283 | of two equally close candidates the later one is chosen |
| Graph.FoldSummarizes | logger/graph.js:242-265 | the summary has data exactly when there is a point, bounds every value and time, attains each bound, and is all zeros otherwise |
| Graph.StepSummarizes | logger/graph.js:252-256 | folding in one more point keeps the summary exact |
| Graph.FoldNext | logger/graph.js:250-257 | the inner loop's next round folds in the next point |
| Graph.AllPointsNext | logger/graph.js:249-258 | the outer loop's next round appends the next series' list |
| Graph.EnsuredFacts | logger/graph.js:48-53 | `setSeries` adds an empty list for each new id at the end of the key order and keeps every existing list |
| Graph.EnsureOne | logger/graph.js:50-52 | one id: a known id changes nothing, a new one gets an empty list at the end |
| Graph.Graph.constructor | logger/graph.js:20-35 | a new graph has exactly one empty list per series id and the series given; the start time given is kept unless it is 0, which `opts.startTime || null` turns into no start time |
| Graph.Graph.SetSeries | logger/graph.js:48-53 | the series are replaced and each id without a list gets an empty one, the rest kept |
| Graph.Graph.SetStartTime | logger/graph.js:55-57 | only a finite number replaces the start time; nothing else changes |
| Graph.Graph.AddPoint | logger/graph.js:59-62 | the point goes at the end of its series' list, created empty and last in key order when missing; nothing else changes |
| Graph.Graph.SummarizeData | logger/graph.js:242-265 | the two loops compute the summary of every point in key order |
| Stt.StripControl | stt/app.js:558 | no control character is left and nothing is added |
| Stt.StripAngle | stt/app.js:559 | no angle bracket is left and nothing is added |
| Stt.StripAngleKeepsNoControl | stt/app.js:558-559 | removing the brackets puts no control character back |
| Stt.Truncate | stt/app.js:561 | the cut text is at most n long |
| Stt.SanitizeInput | stt/app.js:556-563 | the result is at most 15 characters |
| Stt.CleanedFacts | stt/app.js:557-560 | the cleaned text is trimmed, free of the removed characters, and no longer than the input |
| Stt.StripControlNoOp | stt/app.js:558 | a text without control characters is unchanged |
| Stt.StripAngleNoOp | stt/app.js:559 | a text without brackets is unchanged |
| Stt.CleanedOfFree | stt/app.js:557-560 | a free text starting with a non-space is cleaned to itself without its trailing white space |
| Stt.CleanedOfClean | stt/app.js:557-560 | a free, trimmed text is cleaned to itself |
| Stt.SanitizeInputSanitized | stt/app.js:556-563 | the result is a sanitised prefix of the cleaned input |
| Stt.SanitizeInputWhole | stt/app.js:561 | a cleaned text of at most 15 characters is kept whole, and then the corrected version agrees |
| Stt.ResanitizeTrimsEnd | stt/app.js:556-563 | sanitising a sanitised text again only drops its trailing white space, and keeps a non-empty text non-empty |
| Stt.SanitizeInputFixedPoints | stt/app.js:556-563 | the texts left unchanged are exactly the sanitised, trimmed ones |
| Stt.SanitizeInputNotIdempotent | stt/app.js:560-561 | a clean text whose 15th character is a space is cut to end in that space, and sanitising again drops it |
| Stt.SanitizeInputTrimmed | stt/app.js:556-563 | the corrected sanitiser gives at most 15 characters |
| Stt.SanitizeInputTrimmedSanitized | stt/app.js:556-563 | the corrected sanitiser gives a sanitised, trimmed prefix of the cleaned input |
| Stt.SanitizeInputTrimmedIdempotent | stt/app.js:556-563 | the corrected sanitiser is idempotent |
| Stt.NormalizeKvEntry | stt/app.js:565-571 | an entry is kept exactly when it is an object whose sanitised key and value are both non-empty, and then as those two |
| Stt.KeptEntries | stt/app.js:577-581 | the kept entries are never more than the items |
| Stt.Truncated | stt/app.js:578 | at most 200 items are looked at |
| Stt.ValidateKvArray | stt/app.js:575-583 | the `for … of` loop computes `validateKvArray` |
| Stt.KeptEntriesValid | stt/app.js:577-581 | every kept entry is a valid pair |
| Stt.ToRaw | stt/app.js:587-597 | the stored form has one item per pair |
| Stt.Reloaded | stt/app.js:593-603 | one reloaded pair per stored pair |
| Stt.KeptEntriesOfValid | stt/app.js:577-581 | a stored table of valid pairs is read back whole, each field re-trimmed |
| Stt.NormalizeStored | stt/app.js:565-571 | a stored valid pair normalises to itself with each field re-trimmed |
| Stt.PersistRoundTrip | stt/app.js:585-603 | saving and loading a table of 1 to 200 valid pairs gives back every pair, each field without its trailing white space |
| Stt.ReloadedSame | stt/app.js:585-603 | a table reloads as itself exactly when no field ends in white space |
| Stt.ReloadChangesKey | stt/app.js:556-603 | a key typed as 14 letters, a space and more letters is stored ending in that space and changed by the next load |
| Stt.ValidKvFacts | stt/app.js:575-583 | `validateKvArray` gives none or a non-empty list of at most 200 valid pairs |
| Stt.RemoveWhitespace | stt/app.js:573 | removing white space never lengthens the text |
| Stt.NormalizeForMatch | stt/app.js:573 | the normalised text is at most 15 characters |
| Stt.NormKeys | stt/app.js:700 | one normalised key per entry |
| Stt.FindMatch | stt/app.js:695-711 | none when the text normalises to nothing or no key is found in it; otherwise the entry with the longest normalised key, the first of equal length |
| Stt.ScanStep | stt/app.js:699-709 | one round of the `forEach` keeps the best so far |
| Stt.KeyMatchesIsContainment | stt/app.js:701-704 | a key counts as found exactly when it is non-empty and occurs in the text |
| Stt.BestIsUnique | stt/app.js:705-706 | at most one entry is the best |
| Stt.GateNeverRejects | stt/app.js:702-703 | the length gate never turns away a key that occurs in the text |
| Stt.KvEditor.constructor | stt/app.js:617-618 | the stored table when it validates, else the defaults, not in edit mode |
| Stt.KvEditor.ToggleEditMode | stt/app.js:713-738 | edit mode flips and the table is kept |
| Stt.KvEditor.AddPair | stt/app.js:727-736 | a pair is added, at the end and sanitised, exactly in edit mode with both fields non-empty |
| Stt.KvEditor.DeleteRow | stt/app.js:682-687 | in edit mode the row is removed, past the end nothing; outside edit mode nothing changes |
| Stt.KvEditor.EditKey | stt/app.js:636-645 | a non-empty sanitised text replaces the row's key; an empty one changes nothing |
| Stt.KvEditor.EditValue | stt/app.js:658-667 | a non-empty sanitised text replaces the row's value; an empty one changes nothing |
| Stt.KvEditor.ImportFile | stt/app.js:750-770 | a file is taken exactly when it is at most 200000 bytes, has no script or XML tag, parses and validates to something, and then its pairs replace the table |
| Stt.KvEditor.Reset | stt/app.js:772-779 | the table becomes the two default pairs |
| Stt.AddKeepsValid | stt/app.js:729-732 | adding a sanitised pair keeps the table valid |
| Stt.DeleteKeepsValid | stt/app.js:684 | deleting a row keeps the table valid |
| Stt.EditKeepsValid | stt/app.js:637-664 | editing a field to a non-empty sanitised text keeps the table valid |
| Stt.DefaultValid | stt/app.js:545-548 | the default table is valid |
| Stt.PlainWordSanitized | stt/app.js:556-563 | a short word of letters, digits, `_` and inner spaces is sanitised and trimmed |
| Ble.NormalizeEol | common/connection/ble.js:229 | no CR is left after the two replacements |
| Ble.NormalizeEolNoOp | common/connection/ble.js:229 | a text without CR is left alone |
| Ble.NormalizeEolIdempotent | common/connection/ble.js:229 | normalising twice is normalising once |
| Ble.NormalizeEolAppend | common/connection/ble.js:229 | two pieces normalise separately unless a CR LF pair straddles them |
| Ble.NormalizeEolStraddle | common/connection/ble.js:229 | a CR LF pair split between two pieces becomes one LF when they are joined first |
| Ble.IndexOfLF | common/connection/ble.js:231 | `indexOf('\n')` finds an LF, or none |
| Ble.IndexOfLFFacts | common/connection/ble.js:231 | no LF comes before the index, and there is none exactly when the index is the length |
| Ble.SplitLinesRestNoLF | common/connection/ble.js:231-238 | what stays in the buffer holds no LF |
| Ble.SplitLinesJoin | common/connection/ble.js:231-238 | the lines with their LFs, then the tail, give back the text |
| Ble.SplitLinesLinesNoLF | common/connection/ble.js:231-238 | no line handed on holds an LF |
| Ble.SplitLinesAppend | common/connection/ble.js:229-238 | cutting a text in two places is cutting the first part and then its tail joined with the second |
| Ble.SplitLinesCons | common/connection/ble.js:231-233 | one turn of the loop cuts off the first line |
| Ble.IndexOfLFExact | common/connection/ble.js:231 | the first LF is where `indexOf` finds it |
| Ble.SplitLinesEndingLF | common/connection/ble.js:231-238 | a text ending in an LF leaves the buffer empty |
| Ble.SplitLinesStartingLF | common/connection/ble.js:231-238 | a text starting with an LF first yields an empty line |
| Ble.DropTrailingCR | common/connection/ble.js:232 | a line without CR is unchanged |
| Ble.Shown | common/connection/ble.js:234-237 | never more texts than lines |
| Ble.ShownTrimmed | common/connection/ble.js:234-237 | every text handed on is non-empty and trimmed |
| Ble.ShownAppend | common/connection/ble.js:234-237 | texts of joined line lists are joined |
| Ble.Feed | common/connection/ble.js:226-238 | a buffer without LF or CR stays so after a notification |
| Ble.RestWithin | common/connection/ble.js:233 | the buffer keeps only characters that came in |
| Ble.TwoChunks | common/connection/ble.js:223-240 | two chunks, cut anywhere, hand on the same lines and leave the same buffer as one |
| Ble.AnyChunking | common/connection/ble.js:223-240 | however the text arrives in chunks, the lines handed on and the buffer left are those of one chunk |
| Ble.FeedKeepsEverything | common/connection/ble.js:229-238 | the buffer and the chunk are exactly the lines handed on and the new buffer |
| Ble.SlicesFacts | common/connection/ble.js:176-178 | the 20-byte slices give back the data in order, each of 1 to 20 bytes and all but the last exactly 20 |
| Ble.WriteChunked | common/connection/ble.js:175-221 | the `for` loop writes the slices in order, each with the write that succeeds for it; it stops, rejecting, at the first slice whose write and retry both throw, having written exactly the slices before it |
| Ble.SliceStep | common/connection/ble.js:177-178 | one turn of the loop takes the next slice off the front |
| Ble.FirstWrite | common/connection/ble.js:199-209 | a write is tried only with a function the characteristic has, with response first when it is allowed, and none exactly when it has neither |
| Ble.RetryWrite | common/connection/ble.js:210-217 | the retry prefers without response, uses only a function present and fails exactly when the first try had none |
| Ble.SliceWrite | common/connection/ble.js:198-217 | a slice is written with the first write when that call does not throw, else with the retry when the second call does not throw, and fails only when both calls throw; the two calls are judged separately, even when they use the same function |
| Ble.SameFunctionRetrySucceeds | common/connection/ble.js:198-217 | a characteristic offering only writeValueWithoutResponse retries with that same function, and a second call that does not throw still writes the slice |
| Ble.DrainStart | common/connection/ble.js:229-231 | the loop starts with the whole buffer and nothing handed on |
| Ble.DrainStep | common/connection/ble.js:231-237 | one turn cuts off the first line and hands on its trimmed text when non-empty and a receiver is set |
| Ble.DrainDone | common/connection/ble.js:231-238 | when no LF is left the buffer is the tail and every line has been handed on |
| Ble.BleManager.constructor | common/connection/ble.js:8-29 | esp32 mode, no device or handles, an empty buffer, no receiver |
| Ble.BleManager.SetMode | common/connection/ble.js:31-33 | only the mode changes |
| Ble.BleManager.OnReceive | common/connection/ble.js:35-37 | from now on complete lines are handed on; nothing else changes |
| Ble.BleManager.IsConnected | common/connection/ble.js:43-45 | connected exactly when there is a device whose GATT server is connected |
| Ble.BleManager.GetEol | common/connection/ble.js:168-173 | the application's end of line when it has one, else nothing for esp32 and LF otherwise |
| Ble.BleManager.HandleNotify | common/connection/ble.js:223-240 | the new buffer and the texts handed on are those of feeding the chunk into the old buffer; nothing else changes |
| Ble.BleManager.Reset | common/connection/ble.js:247-254 | no device, no handles, an empty buffer; mode and receiver kept |
| Ble.BleManager.OnDisconnected | common/connection/ble.js:242-245 | a dropped link resets the manager |
| Ble.BleManager.Target | common/connection/ble.js:158-165 | rx for microbit and esp32, tx otherwise |
| Ble.BleManager.SendMessage | common/connection/ble.js:148-221 | an empty trimmed message writes nothing, a missing connection fails, otherwise the bytes of the message and the end of line go out in 20-byte slices to the mode's characteristic, each slice with the first write or its retry; when both throw for a slice the send rejects after exactly the slices before it |
| Ble.SentBytes | common/connection/ble.js:154-178 | the slices written for a non-empty message reassemble to its bytes and the end of line |
| ConnectionState.ParseDevice | common/connection/app_state.js:21 | the board named, microbit for any other name |
| ConnectionState.ParseDeviceName | common/connection/app_state.js:21 | naming a board and reading the name back gives the board |
| ConnectionState.ParseTransport | common/connection/app_state.js:30 | exactly "ble" and "serial" are accepted, each as itself |
| ConnectionState.Baud | common/connection/app_state.js:4-22 | 9600 exactly for orange, 115200 otherwise |
| ConnectionState.Eol | common/connection/app_state.js:6-18 | never empty, and the table entry when that is not empty |
| ConnectionState.EolCases | common/connection/app_state.js:6-18 | CR LF only for esp32 over serial, LF for every other pair, esp32 over BLE included |
| ConnectionState.IntendedEol | common/connection/app_state.js:6-9 | the table entry itself, empty for esp32 over BLE |
| ConnectionState.EolDiffersOnlyForBleEsp32 | common/connection/app_state.js:7-18 | the getter and the table differ exactly for esp32 over BLE, where the getter gives LF and the table asks for nothing |
| ConnectionState.AppState.constructor | common/connection/app_state.js:11-15 | microbit over serial at 115200 baud, no manager, nothing connected |
| ConnectionState.AppState.BaudNow | common/connection/app_state.js:17 | the current baud rate |
| ConnectionState.AppState.EolNow | common/connection/app_state.js:18 | the end of line for the current transport and board |
| ConnectionState.AppState.SetDevice | common/connection/app_state.js:20-27 | the board named (microbit for unknown), its baud rate, and the manager put in that board's mode |
| ConnectionState.AppState.SetTransport | common/connection/app_state.js:29-32 | only "ble" and "serial" change the transport; nothing else changes |
| ConnectionState.AppState.SetBleManager | common/connection/app_state.js:34 | only the manager changes |
| ConnectionState.AppState.SetBleConnected | common/connection/app_state.js:35 | the flag is the truthiness of the value; nothing else changes |
| ConnectionState.AppState.SetSerialPortOpen | common/connection/app_state.js:36 | the flag is the truthiness of the value; nothing else changes |
| TmState.ParseDevice | teachableMachine/app_state.js:21 | the board named, microbit for any other name |
| TmState.ParseDeviceName | teachableMachine/app_state.js:21 | naming a board and reading the name back gives the board |
| TmState.ParseTransport | teachableMachine/app_state.js:30 | exactly "ble" and "serial" are accepted, each as itself |
| TmState.Baud | teachableMachine/app_state.js:4-22 | 9600 exactly for uno, 115200 otherwise |
| TmState.Eol | teachableMachine/app_state.js:6-18 | never empty, and the table entry when that is not empty |
| TmState.EolCases | teachableMachine/app_state.js:6-18 | CR LF only for esp32 over serial, LF otherwise; the empty BLE entries always become LF |
| TmState.IntendedEol | teachableMachine/app_state.js:5-9 | corrected: the table entry itself, empty exactly over BLE, leaving the line ending to the BLE link |
| TmState.EolDiffersForBle | teachableMachine/app_state.js:5-18 | the getter and the table differ exactly over BLE, for every board: the getter gives LF where the table asks for nothing |
| TmState.ForwardedModeAsWritten | teachableMachine/app_state.js:25 | the mode handed on is the board's own name |
| TmState.ForwardedModeAsWrittenUnknown | teachableMachine/app_state.js:25 | an Uno puts the manager in the mode "uno", which its `connect` does not know |
| TmState.ForwardedMode | teachableMachine/app_state.js:25 | corrected: an Uno is forwarded as "orange", any other board as its name |
| TmState.ForwardedModeKnown | teachableMachine/app_state.js:25 | corrected: every board is forwarded as a known mode, each to a different one |
| TmState.AppState.constructor | teachableMachine/app_state.js:11-15 | microbit over serial at 115200 baud, no manager, nothing connected |
| TmState.AppState.BaudNow | teachableMachine/app_state.js:17 | the current baud rate |
| TmState.AppState.EolNow | teachableMachine/app_state.js:18 | the end of line for the current transport and board |
| TmState.AppState.SetDevice | teachableMachine/app_state.js:20-27 | the board named (microbit for unknown), its baud rate, and the manager put in the mode the conditional forwards |
| TmState.AppState.SetTransport | teachableMachine/app_state.js:29-32 | only "ble" and "serial" change the transport; nothing else changes |
| TmState.AppState.SetBleManager | teachableMachine/app_state.js:34 | only the manager changes |
| TmState.AppState.SetBleConnected | teachableMachine/app_state.js:35 | the flag is the truthiness of the value; nothing else changes |
| TmState.AppState.SetSerialPortOpen | teachableMachine/app_state.js:36 | the flag is the truthiness of the value; nothing else changes |
| ButtonGrid.RowMajorIndex | ble/button-grid.js:200 | index `row·cols + col` decodes back to its row and column (with ble/button-grid.js:307-308) |
| ButtonGrid.InGrid | ble/button-grid.js:264-266 | an index below `rows·cols` lies in one of the first `rows` rows |
| ButtonGrid.DefaultButtons | ble/button-grid.js:263-276 | n generated buttons |
| ButtonGrid.DefaultButtonsAt | ble/button-grid.js:266-274 | generated button i is the default button at index i with its drawn colour |
| ButtonGrid.DefaultGridLayout | ble/button-grid.js:263-276 | a generated grid has `rows·cols` buttons in row-major order inside the grid, button i labelled `버튼 i+1` and sending `BUTTON_i+1` |
| ButtonGrid.DefaultValuesDistinct | ble/button-grid.js:269 | different generated buttons send different values |
| ButtonGrid.NaNSizeNotRejected | ble/button-grid.js:247-253 | as written, an empty rows field passes the check though it names no size |
| ButtonGrid.SizeCheckOnNumbers | ble/button-grid.js:250 | on numbers the intended check and the written one agree |
| ButtonGrid.Fit | ble/button-grid.js:295-298 | a list longer than the grid is cut to its first `rows·cols` buttons, a shorter one kept |
| ButtonGrid.Normalized | ble/button-grid.js:303-320 | one normalised button per button |
| ButtonGrid.NormalizedAt | ble/button-grid.js:306-317 | button i becomes button i moved to index i with its empty fields filled in |
| ButtonGrid.NormalizedFacts | ble/button-grid.js:303-320 | order and count kept, row-major positions, every non-empty label and value and every icon kept, each empty label or value given the default of its new place |
| ButtonGrid.NormalizedIdempotent | ble/button-grid.js:303-320 | normalising a normalised list changes nothing |
| ButtonGrid.Grow | ble/button-grid.js:669-680 | refused exactly for a full 5 × 5 grid, and the grid never shrinks |
| ButtonGrid.GrowMakesRoom | ble/button-grid.js:669-683 | the grown grid is at most one row or one column larger, within 5 × 5, and the appended button's cell lies inside it |
| ButtonGrid.FindCell | ble/button-grid.js:376 | the first button at the cell, or none at all (with ble/button-grid.js:484) |
| ButtonGrid.FindCellFirst | ble/button-grid.js:376 | the first button at a cell is the one found (with ble/button-grid.js:484) |
| ButtonGrid.FindCellRowMajor | ble/button-grid.js:376 | in a row-major list the button shown in (row, col) is the one at `row·cols + col`, and none past the end (with ble/button-grid.js:200) |
| ButtonGrid.RemoveAt | ble/button-grid.js:469 | `splice(idx, 1)` drops the button at idx, and nothing past the end |
| ButtonGrid.EditLabel | ble/button-grid.js:491 | the stored label is the trimmed input cut to six characters |
| ButtonGrid.SaveConfigShows | ble/button-grid.js:484-496 | after a save the cell shows the saved configuration, every other button is as it was, and the list grows by one exactly when no button was there |
| ButtonGrid.Hex2 | ble/button-grid.js:426 | two hex digits that read back as the byte |
| ButtonGrid.Doubled | ble/button-grid.js:418 | every character doubled |
| ButtonGrid.DoubledAt | ble/button-grid.js:418 | positions 2i and 2i+1 hold character i |
| ButtonGrid.Round | ble/button-grid.js:425 | `Math.round`: the nearest integer, halves up |
| ButtonGrid.Clamp | ble/button-grid.js:425 | into 0..255, unchanged inside it |
| ButtonGrid.MatchLen | ble/button-grid.js:422 | a match of the `rgb(`, `rgba(` or `)` pattern fits the text |
| ButtonGrid.SplitComma | ble/button-grid.js:422 | `split(',')` gives at least one part |
| ButtonGrid.Channels | ble/button-grid.js:422-423 | three channels |
| ButtonGrid.HexOf | ble/button-grid.js:412-450 | only the hsl branch is left unmodelled |
| ButtonGrid.ToHexColor | ble/button-grid.js:410-451 | none exactly for a non-empty colour in the hsl branch |
| ButtonGrid.ChannelIsHex | ble/button-grid.js:424-427 | a number channel gives two hex digits |
| ButtonGrid.DoubledHex | ble/button-grid.js:416-419 | a three-digit hex doubled is six hex digits |
| ButtonGrid.RgbHexIsHex | ble/button-grid.js:421-429 | three number channels give a `#rrggbb` |
| ButtonGrid.ShortHexExpands | ble/button-grid.js:416-419 | `#abc` converts to `#aabbcc` |
| ButtonGrid.ToHexColorIsHex | ble/button-grid.js:410-451 | every result outside the hsl branch is a lower-case `#rrggbb`, unless an rgb channel is not a number |
| ButtonGrid.ToHexColorFixedPoint | ble/button-grid.js:414 | a `#rrggbb` colour converts to itself |
| ButtonGrid.ToHexColorIdempotent | ble/button-grid.js:410-451 | converting twice is converting once, outside the hsl and NaN cases |
| ButtonGrid.ChannelRounded | ble/button-grid.js:425-426 | a number channel becomes the nearest integer, clamped, in hex |
| ButtonGrid.StripRgbOfRgb | ble/button-grid.js:422 | the regex removes `rgb(` and the closing parenthesis |
| ButtonGrid.RgbParts | ble/button-grid.js:422 | the body of `rgb(x, y, z)` splits into the three numerals |
| ButtonGrid.RgbRoundTrip | ble/button-grid.js:396-429 | the computed style `rgb(a, b, c)` of bytes converts to the `#rrggbb` whose digit pairs read back as a, b and c |
| ButtonGrid.BuiltInPresetsRowMajor | ble/button-grid.js:54-84 | both built-in presets fill their 3 × 3 grid in row-major order, button i sending `i+1` |
| ButtonGrid.EnsuredFits | ble/button-grid.js:293-301 | after `ensureCustomButtons` the list fits its grid in row-major order |
| ButtonGrid.RemoveAtShifts | ble/button-grid.js:469-470 | the buttons after a deleted one move back one place, the others keep theirs |
| ButtonGrid.DeleteRemovesShown | ble/button-grid.js:465-470 | deleting removes exactly the button the cell shows, in a row-major list |
| ButtonGrid.NormalizeButtons | ble/button-grid.js:303-320 | the loop normalises each button in turn |
| ButtonGrid.GenerateButtons | ble/button-grid.js:263-276 | the nested loops generate `rows × cols` buttons row by row |
| ButtonGrid.GenerateStep | ble/button-grid.js:266-274 | the next generated button sits at (row, col) |
| ButtonGrid.PresetsStayWellSized | ble/button-grid.js:259-260 | replacing one preset by a well-sized one keeps every preset well-sized (with ble/button-grid.js:735) |
| ButtonGrid.ButtonGridManager.constructor | ble/button-grid.js:6-97 | a 5 × 5 grid, the built-in presets and the saved custom layout when there is one (with ble/button-grid.js:730-740) |
| ButtonGrid.ButtonGridManager.NormalizeCustomButtons | ble/button-grid.js:303-320 | the custom list is rebuilt in row-major order; nothing else changes |
| ButtonGrid.ButtonGridManager.EnsureCustomButtons | ble/button-grid.js:293-301 | the custom list is cut to its grid and normalised; nothing else changes |
| ButtonGrid.ButtonGridManager.LoadPreset | ble/button-grid.js:163-182 | an unknown preset changes nothing; otherwise the grid takes its size, and the custom list is fitted |
| ButtonGrid.ButtonGridManager.SelectPreset | ble/button-grid.js:101-121 | the chosen preset is selected; in edit mode the custom preset and the grid size are first rolled back from the snapshots and the editor closed; then the preset's size is taken and for the custom preset its list is fitted; the stored layout is kept |
| ButtonGrid.ButtonGridManager.CreateCustomGrid | ble/button-grid.js:246-284 | a size outside 1..5 × 1..5 changes nothing; otherwise the custom preset becomes that many generated buttons and is saved |
| ButtonGrid.ButtonGridManager.AddNewButton | ble/button-grid.js:666-693 | on a full grid a row, else a column, is added, refused at 5 × 5; then the next generated button goes at the next row-major cell |
| ButtonGrid.ButtonGridManager.EditButton | ble/button-grid.js:368-407 | the editor opens on the button at the cell, a default one being added when none is there |
| ButtonGrid.ButtonGridManager.SaveButtonConfig | ble/button-grid.js:475-507 | the trimmed fields go to the edited cell's button, or a new one, and the editor closes; nothing happens with none edited |
| ButtonGrid.ButtonGridManager.DeleteCurrentButton | ble/button-grid.js:453-473 | refused with no edited button, outside the custom preset or with one button left; otherwise the button at `row·cols + col` goes and the rest are normalised |
| ButtonGrid.ButtonGridManager.ToggleEditMode | ble/button-grid.js:569-625 | entering (custom only) snapshots the preset and size; leaving closes the editor and puts back a snapshot; both snapshots are cleared |
| ButtonGrid.ButtonGridManager.SaveGridChanges | ble/button-grid.js:648-664 | the open button is saved, the custom preset stored, the snapshots dropped, and edit mode left keeping the edits |
| ButtonGrid.Restored | ble/button-grid.js:607-613 | the rollback gives the snapshot's buttons, resized to the recorded grid |
| ButtonGrid.RollbackRestores | ble/button-grid.js:581-613 | a snapshot taken at the grid's own size gives the preset back unchanged |
| Quest.ProgressPercent | quest/app.js:441-451 | the width is 0..100 percent: 0 without questions, the share answered in between, 100 at the end |
| Quest.ProgressMonotone | quest/app.js:448 | the bar never shrinks as the quiz moves on |
| Quest.DrawIndex | quest/app.js:417 | `Math.floor(r·(i+1))` is a position in 0..i |
| Quest.Swap | quest/app.js:418 | positions i and j swap, the rest stay |
| Quest.SwapPermutes | quest/app.js:418 | a swap keeps the elements |
| Quest.ShuffledFromPermutes | quest/app.js:416-419 | the remaining steps keep the elements |
| Quest.FisherYatesPermutes | quest/app.js:414-421 | a shuffle rearranges the elements: the same ones, as often as before |
| Quest.Shuffle | quest/app.js:414-421 | the loop on a copy computes the Fisher–Yates shuffle for the draws |
| Quest.SelectionFromPool | quest/app.js:471 | a quiz asks at most ten questions, all from the pool, none more often than there |
| Quest.ByKey | quest/app.js:527-528 | every entry is stored under its own key |
| Quest.ByKeyLatest | quest/app.js:528 | a key is present exactly when some card has it, and holds the last such card |
| Quest.WinnerUnique | quest/app.js:531-536 | two winners share score and id, so distinct ids make the result unique |
| Quest.ZeroScores | quest/app.js:473 | every score back to zero, keys kept |
| Quest.QuizState.constructor | quest/app.js:31-39 | no role, nothing loaded, no result |
| Quest.QuizState.LoadDataForRole | quest/app.js:454-466 | the role's questions and results, every result key at score 0 |
| Quest.QuizState.StartQuiz | quest/app.js:468-477 | the first ten of a shuffled pool, the first current, every score zero |
| Quest.QuizState.Answer | quest/app.js:493-501 | one point to the chosen option's category, the others kept, on to the next question, finished after the last |
| Quest.QuizState.ComputeResult | quest/app.js:524-538 | the card of the highest-scoring category, the lowest id winning a tie, among the last card of each key; none exactly without result cards |
| Quest.QuizState.Finish | quest/app.js:510-517 | the best result becomes the last result and is saved with the role and its id; without result cards nothing changes |

## Left out

- ButtonGrid.ButtonGridManager.CreateCustomGrid: uses the intended size check `SizeAccepted`. The program's `< 1 || > 5` test (ble/button-grid.js:250-253) lets an empty or non-numeric field through as NaN: rows and cols become NaN, no button is built and an empty custom preset is saved. The sizes here are integers, so that NaN state is not represented. `RejectedAsWritten` and `NaNSizeNotRejected` record the written test (see Findings).
- Text.ParseFloat: parses decimals exactly and without bound. JavaScript's `parseFloat` rounds to a binary double and turns "1e400" into Infinity, which the logger then drops as non-finite. Here that value is finite.
- Text.Lower: folds ASCII letters only. `toLowerCase` folds all of Unicode. This reaches `LoggerLabels.NormalizeLabel`, the group-name normaliser, `Stt.NormalizeForMatch` and `ButtonGrid.ToHexColor`.
- LoggerXlsx.Hundredths: rounds the exact decimal `ms / 1000` half up. `toFixed(2)` rounds the binary double, so for example ms = 1005 may show "1s" in the program and "1.01s" here.
- Graph.Graph.SummarizeData: points are `real`, so the skip of non-finite values (logger/graph.js:251) never applies.
- Stt.NormalizeKvEntry: an entry's key and value are strings or missing. A JSON number or boolean member, which `toString` turns into its text, and an array or object member are not represented.
- Stt.SanitizeInput: counts code points; JavaScript's `.length` and `.slice` count UTF-16 units, so a surrogate pair split by the 15-character cut in the program stays whole here.
- LoggerXlsx.SafeSheetName: counts its 31-character limit in code points, not UTF-16 units, for the same reason.
- Quest.QuizState.ComputeResult: visits the personality keys in insertion order. `Object.keys` puts integer-like keys first in ascending order. The logger's maps keyed by series id are walked in the same simplified order. When there are no results the program throws, which is not modelled: this member returns None and `Finish` then changes nothing.
- Ble.BleManager.HandleNotify: a throwing receive callback inside the loop's `try` (common/connection/ble.js:229-242) ends the loop and leaves the remaining lines in the buffer. Callbacks here do not throw. The chunk arrives already decoded: `TextDecoder` without streaming turns a multibyte character split across two notifications into U+FFFD, and that is not modelled.
- LoggerImport.BuildImportPayload: requires tables with a header, which every table the readers produce has (`ParsedTableImportable`). The `TypeError` path on a malformed table object is not modelled.
- Restoring saved state is not modelled: `applyState` and `createGroupFromState` (logger/app.js:1413-1463, 1848-1879) over `localStorage` and `JSON.parse`. Saving is modelled through the storage oracle. The storage-size checks and `scheduleSave` timers are not modelled.
- The import entry points `importFromText` and `importFromFiles` (logger/app.js:1465-1550) are not modelled: they read files, which is I/O. Neither are the DOMParser orchestration of `parseXlsx` (logger/app.js:1248-1320) and the SheetJS fallback, an external library. The readers they call are modelled.
- `inflateRaw` (DecompressionStream) is a parameter `inflate` of the ZIP reader: a browser stream API.
- BLE `connect`, `disconnect`, device selection and `_emitStatus` (common/connection/ble.js:47-146) are not modelled: they are Web Bluetooth calls and event dispatch. The line buffer, `_reset`, `_getEol`, `sendMessage` and `_writeChunked` are modelled.
- Ble.WriteChunked: whether a write call throws is a parameter (`throws`, by slice, attempt and write kind, so a retry of the same function may succeed after a transient error); the time a write takes and the 5 ms pause after each slice are not modelled.
- The button grid's `onButtonClick`, `createGrid` and `updateButtonUI` are not modelled: they are DOM work. The HSL branch of `toHexColor` is not modelled either: it reads a computed style from the DOM; `ToHexColor` returns None for it. `getRandomPastelColor` is the `pastel` parameter.
- The quest's rendering, its timers and its URL query are not modelled: DOM, clock and location. `Math.random` is the `draws` sequence.
- The speech-to-text export handler (stt/app.js:740-747), speech recognition and audio are not modelled: file download and browser speech APIs.
- The graph's rendering and hover handling (logger/graph.js:87-240) are not modelled: canvas drawing and mouse events.
- The logger's DOM, drag-and-drop and file dialogs are not modelled.

## Findings

The model's operations follow the code as written, so that they describe the program that runs. The corrected definitions stand beside them, with the evidently intended property proved. Where the two agree on an input class, a lemma says so (for example, `LoggerRows.ParseRowsToTableByColumn` agrees with the written reader when no header label is blank).

| source | as written | input that shows it | evidently intended | confidence | as-written member | corrected member |
|---|---|---|---|---|---|---|
| logger/app.js:521-527 | `formatSeconds` strips trailing zeros after `toFixed(0)` as well, so whole tens of seconds lose a digit | an offset of 10000 ms is written "1s" | "10s": strip zeros only after a decimal point | not executed | LoggerXlsx.FormatSecondsTenSeconds | LoggerXlsx.FormatSeconds |
| logger/app.js:1031-1041 | blank header labels are dropped while values are still taken from `cells[index + 1]` | header ["time", "", "a"] with row ["1", "5", "7"] gives a = 5 | a = 7: each value from its own column | not executed | LoggerRows.ParseRowsToTableShiftsColumns | LoggerRows.ParseRowsToTableByColumn |
| stt/app.js:556-563 | the 15-character cut comes after the trim, so it can leave a trailing space | "abcdefghijklmn xyz" becomes "abcdefghijklmn ", and a second pass gives "abcdefghijklmn" | a sanitiser that is idempotent, so a reload keeps the key | not executed | Stt.SanitizeInputNotIdempotent | Stt.SanitizeInputTrimmedIdempotent |
| common/connection/app_state.js:18 | the fallback to `'\n'` after a logical or replaces the empty line ending chosen for BLE with ESP32 by LF | type ble, device esp32: eol is LF | the empty line ending, as the BLE writer's comment at common/connection/ble.js:159 describes | not executed | ConnectionState.EolDiffersOnlyForBleEsp32 | ConnectionState.IntendedEol |
| teachableMachine/app_state.js:18 | the fallback to `'\n'` after a logical or replaces every empty BLE entry, which the comment at teachableMachine/app_state.js:5 leaves to the BLE link, by LF | type ble, any device: eol is LF, and the BLE writer sends it after the message (common/connection/ble.js:169-170) | the empty entry, so that the BLE link decides the line ending | not executed | TmState.EolDiffersForBle | TmState.IntendedEol |
| teachableMachine/app_state.js:25 | the uno branch forwards "uno", the same as the device | device uno: the manager is set to mode "uno", a mode it does not know | the mode the manager knows for the Uno ("orange"); the connection manager's setDevice (teachableMachine/connection_manager.js:29-33) calls setMode with "orange" for the Uno right after app.setDevice, which masks the defect on that path | not executed | TmState.ForwardedModeAsWrittenUnknown | TmState.ForwardedModeKnown |
| ble/button-grid.js:250-253 | a size is rejected only by `< 1` or `> 5`, which are both false for NaN | an empty rows field: the grid becomes NaN by NaN and an empty preset is saved | reject any size that is not an integer from 1 to 5 | not executed | ButtonGrid.NaNSizeNotRejected | ButtonGrid.ButtonGridManager.CreateCustomGrid |
| logger/app.js:3351-3364 | a labelled sample's series is looked up by the raw label but registered under the sanitised one (logger/app.js:1779-1783) | two lines labelled "a<b": each one creates a new series | each line reaches the one series for "a<b" | not executed | LoggerIngest.MarkupLabelSplitsSeries | LoggerRegistry.MarkupLabelJoinsSeries |
