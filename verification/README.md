# IRFinder and iMOKA genome-browser tracks, modelled in Dafny

This project models the sequential logic of three custom genome-browser tracks:

- the **IRFinder** intron-retention track;
- its **IR-ratio** variant;
- the **iMOKA** k-mer track.

It states and proves properties of that logic. The model covers the following.

- **IRFinder record parser.**
  - Lines are split on tabs.
  - A line is kept only when it has exactly the 21 schema columns and is not the header.
  - Each kept line becomes a feature:
    - start and end are padded by 15 bases;
    - the intron type is taken from the `Name` column;
    - exon heights and the feature's value are derived from the flank depths and splice counts.
  - A feature answers its popup listing and column lookups.
- **IRFinder track state** (`IRFinderTrack.IntronTrack`):
  - configuration defaults;
  - the request memo keyed `chr-start:end`;
  - the filter pass, which assigns lanes first-fit over a lane table seeded with `-100`;
  - autoscaling;
  - the row geometry `draw` caches on features;
  - the click lookup that inverts it;
  - the colour ramp, number labels, axis ticks and content height;
  - the menu toggles.
- **IR-ratio variant:**
  - its autoscale;
  - the tick sequence of its axis;
  - the pixel extent, height and label of its bars.
- **iMOKA track** (`IMokaTrack.KmerTrack`):
  - the conflict-driven stacking of k-mers into lanes, including the sort before it;
  - the content height;
  - the click lookup;
  - the accuracy colour.

How JavaScript values are represented:

- Numbers are `int` or `real`.
- A `NaN` or `undefined` number is `None`. A comparison against it is false, as in JavaScript.
- `Math.floor`, `Math.ceil` and `Math.round` are defined on reals in `JsMath`.
- `parseInt` and `parseFloat` are defined with prefix semantics in `JsText`.
- Features are values: a filter pass returns the features with their `row` written, and `draw` returns them with their box `y` written.
- The IR-ratio track is the same class as the depth track with a `kind` tag. The tag selects the autoscale. The ratio track also has its own axis ticks and its own bar (`drawIntronRatio`); `IRratio` models both.

Where the code and the documented behaviour differ, the model follows the code:

- **IRFinder `maxRow`** counts the `-100` seed lane (`js/irfinder/irfinderTrack.js:219,238`). The seed lane is used as lane 0 by the first feature that fits after it.
- **The iMOKA sort.** The comparator given to the iMOKA sort has a block body without `return` (`js/imoka/imokaTrack.js:223-225`). Every comparison therefore yields `undefined`, which the sort reads as 0, and the stable sort keeps the input order. `IMokaTrack.AsWrittenSortKeepsOrder` proves this for a stable insertion sort.
- **iMOKA `contains`** writes the same disjunct twice. `contains(a,b) || contains(b,a)` is still an exact closed-interval overlap test for forward spans (`IMokaTrack.TouchIsClosedOverlap`).
- **The iMOKA conflict check** reads lanes left on k-mers by an earlier stacking. K-mers are reused objects, so a k-mer not yet placed in this pass still carries its old lane. The model keeps those lanes as input (`Kmer.y`). Each lane is proved to be the lowest one free against exactly that snapshot.

## Model

| member | source | states |
|---|---|---|
| IRFinderParser.ParseHeader | js/irfinder/irfinderParser.js:29-31 | the header is the fixed 21-name column list, starting with `Chr`, with `Null` fifth |
| IRFinderParser.HeaderSkipped | js/irfinder/irfinderParser.js:22 | the header line itself is never accepted as a record |
| IRFinderParser.HeaderLineRejected | js/irfinder/irfinderParser.js:22 | any line whose first field is `Chr` is rejected |
| IRFinderParser.AcceptsJoined | js/irfinder/irfinderParser.js:21-22 | a tab-joined line of 21 tab-free fields is accepted iff its first field is not `Chr` |
| IRFinderParser.ParseFeatures | js/irfinder/irfinderParser.js:15-27 | absent data gives null; otherwise the features of the accepted lines, in order |
| IRFinderParser.ParsedLinesSelect | js/irfinder/irfinderParser.js:20-24 | the parsed list has one feature per accepted line, in line order, each built from that line's tab split |
| IRFinderParser.AcceptedIndicesSelect | js/irfinder/irfinderParser.js:22 | a line index is selected iff its line is accepted; selected indices increase strictly |
| IRFinderParser.MakeFeature | js/irfinder/irfinderParser.js:36-51 | start is `parseInt(tokens[1]) - 15` and end is `parseInt(tokens[2]) + 15`; both are NaN when the parse fails. The intron type is the name's third `/` field. Depth, exon-to-intron counts, flank depths and ratio are `parseFloat` of their columns; splice counts are `parseInt` of theirs. Each exon is the least integer at or above flank depth plus splice count, NaN when either is. The value is at least both exons and equals one of them. Chromosome, strand, warning and tokens are copied |
| IRFinderParser.SpanWidened | js/irfinder/irfinderParser.js:38-39 | the padded span is exactly 30 bases longer than the record's span |
| IRFinderParser.ExampleRecord | js/irfinder/irfinderParser.js:38-49 | the record 100/200/`A/B/clean` gives start 85, end 215, type `clean` and value 6 |
| IRFinderParser.IntronType | js/irfinder/irfinderParser.js:40 | the type is defined iff the name has at least three `/`-separated fields; it contains no `/` |
| IRFinderParser.IntronTypeOfName | js/irfinder/irfinderParser.js:40 | the type of `p0/p1/p2/...` is `p2` |
| IRFinderParser.CeilSum | js/irfinder/irfinderParser.js:46 | `ceil(a + b)` is the least integer at or above the sum; NaN when either part is |
| IRFinderParser.MaxOf | js/irfinder/irfinderParser.js:47 | the maximum is at least both parts and equals one of them; NaN when either is |
| IRFinderParser.Shift | js/irfinder/irfinderParser.js:38-39 | shifting preserves NaN and moves a number by exactly `d` |
| IRFinderParser.PopupData | js/irfinder/irfinderParser.js:53-57 | 20 name/token pairs in column order: the first four columns, then columns 6 to 21. No pair is named `Null` |
| IRFinderParser.DropFifth | js/irfinder/irfinderParser.js:56 | dropping the only entry with a name removes exactly that position |
| IRFinderParser.DropNamed | js/irfinder/irfinderParser.js:56 | the result has no entry with the dropped name |
| IRFinderParser.DropNamedConcat | js/irfinder/irfinderParser.js:56 | dropping by name distributes over concatenation |
| IRFinderParser.NullOnlyAtFour | js/irfinder/irfinderParser.js:3 | `Null` is the fifth column and no other |
| IRFinderParser.GetAttribute | js/irfinder/irfinderParser.js:59-61 | defined iff the name is a column; then it is the token at the name's first column index |
| IRFinderParser.FindToken | js/irfinder/irfinderParser.js:60 | the search from column `k` finds the token at the name's index iff the name occurs from `k` on |
| JsText.Split | js/irfinder/irfinderParser.js:21 | at least one piece, and no piece contains the separator |
| JsText.JoinSplit | js/irfinder/irfinderParser.js:21 | joining the pieces of a split gives back the line |
| JsText.SplitJoin | js/irfinder/irfinderParser.js:21 | splitting a join of separator-free pieces gives back the pieces |
| JsText.ParseInt | js/irfinder/irfinderParser.js:38-45 | a number iff the text, after an optional sign, starts with a digit; not negative without a minus sign, not positive with one |
| JsText.UnsignedFloat | js/irfinder/irfinderParser.js:42-48 | a number iff the text starts with a digit, or with a point and a digit; never negative |
| JsText.ParseFloat | js/irfinder/irfinderParser.js:42-48 | a number iff the text, after an optional sign, starts with a digit or with a point and a digit; not negative without a minus sign, not positive with one |
| JsText.ParseFloatOfIntToString | js/irfinder/irfinderParser.js:42-48 | `parseFloat` reads back the decimal text of any integer followed by neither a digit nor a point |
| JsText.ParseFloatExtendsParseInt | js/irfinder/irfinderParser.js:42-48 | where `parseInt` reads a number `parseFloat` reads one too, and it differs from it by less than 1, away from zero |
| JsText.ParseIntOfIntToString | js/irfinder/irfinderTrack.js:77 | `parseInt` reads back the decimal text of any integer followed by a non-digit |
| JsText.FindIndex | js/irfinder/irfinderTrack.js:226 | -1 iff absent; otherwise the first index holding the value |
| JsText.Includes | js/irfinder/irfinderTrack.js:93 | true iff the substring occurs at some position |
| IRFinderLayout.FirstFreeLane | js/irfinder/irfinderTrack.js:226 | the first lane whose last end is strictly below the start; every lower lane fails that test; the table length when none passes |
| IRFinderLayout.AssignRows | js/irfinder/irfinderTrack.js:218-238 | the loop writes every feature's row, the lane count and the splice maximum exactly as the layout fold `LayoutOf` defines them |
| IRFinderLayout.LayoutShape | js/irfinder/irfinderTrack.js:219-238 | see the note after this table |
| IRFinderLayout.FirstFit | js/irfinder/irfinderTrack.js:226-233 | a kept feature's lane is the lowest whose last end is below its start, and all lower lanes fail. A lane is appended only when none fits. The chosen lane's last end becomes the feature's end |
| IRFinderLayout.RowsStable | js/irfinder/irfinderTrack.js:221-237 | later features never change the rows already assigned |
| IRFinderLayout.LanesDisjoint | js/irfinder/irfinderTrack.js:226-233 | for forward spans, of two kept features on the same lane the later starts strictly after the earlier ends |
| IRFinderLayout.LanesCover | js/irfinder/irfinderTrack.js:226-233 | each lane's stored end bounds the end of every feature on it; lane sharers are disjoint |
| IRFinderLayout.StepCover | js/irfinder/irfinderTrack.js:222-236 | one feature's turn preserves that invariant |
| IRFinderLayout.OrderedDisjointUseOneLane | js/irfinder/irfinderTrack.js:219-233 | kept, ordered, disjoint features starting after -100 all go on the seed lane, so `maxRow` is 1 |
| IRFinderLayout.LayoutIgnoresAnnotations | js/irfinder/irfinderTrack.js:218-237 | the layout depends only on warning, type, span and splice count, not on rows or boxes written earlier |
| IRFinderLayout.FilterIdempotent | js/irfinder/irfinderTrack.js:218-241 | filtering the features a filter pass annotated gives the same layout |
| IRFinderLayout.ShownAreKept | js/irfinder/irfinderTrack.js:222-241 | the returned list is exactly the features passing both filters, in input order |
| IRFinderLayout.KeptWithRows | js/irfinder/irfinderTrack.js:241 | every feature in the kept list passes the filters |
| IRFinderLayout.Shown | js/irfinder/irfinderTrack.js:241 | the returned features come from the input and none is hidden |
| IRFinderLayout.Annotate | js/irfinder/irfinderTrack.js:233-235 | each feature gets its row and nothing else changes |
| IRFinderLayout.Toggle | js/irfinder/irfinderTrack.js:406-411 | an absent value is appended. A present value loses one occurrence and the list shrinks by one. Other values keep their membership |
| IRFinderLayout.ToggleRemovesFirst | js/irfinder/irfinderTrack.js:422-427 | the removed entry is the first occurrence and the others keep their order |
| IRFinderLayout.ToggleTwice | js/irfinder/irfinderTrack.js:406-427 | toggling flips membership; toggling twice restores it, and restores the list itself when the value was absent |
| IRFinderLayout.ToggleKeepsAtMostOnce | js/irfinder/irfinderTrack.js:406-411 | toggling never creates a duplicate |
| IRFinderRender.DepthAutoscale | js/irfinder/irfinderTrack.js:118-132 | empty list: `{0, 1, 1}`. Otherwise min 0, max from the depth autoscale, and ratio maximum from the ratio autoscale, at least 0.01 |
| IRFinderRender.RatioValues | js/irfinder/irfinderTrack.js:127 | one entry per feature, its IR ratio |
| IRFinderRender.Ramp | js/irfinder/irfinderTrack.js:100-105 | green is 0. Below one half, red is `ceil(510v)` and blue is 0. From one half, blue is `ceil(510(v - 0.5))` and red is 255 less blue. Every channel is a byte for `v` in [0,1] |
| IRFinderRender.RampLandmarks | js/irfinder/irfinderTrack.js:100-105 | 0 is black, 0.5 pure red, 1 pure blue |
| IRFinderRender.Scaled | js/irfinder/irfinderTrack.js:94 | defined iff ratio and maximum are numbers and the maximum is not 0; then scaled times maximum is the ratio |
| IRFinderRender.FeatureColor | js/irfinder/irfinderTrack.js:86-108 | `default`: the track colour. `warnings`: the colour at the warning's index, undefined for an unlisted warning. Otherwise NaN iff the (optionally scaled) ratio is NaN, else the ramp of it |
| IRFinderRender.ScaledColorInGamut | js/irfinder/irfinderTrack.js:93-105 | in a scaled mode, a ratio between 0 and the ratio maximum gives byte channels with green 0 |
| IRFinderRender.Number2Text | js/irfinder/irfinderTrack.js:110-116 | the text is never empty |
| IRFinderRender.Number2TextReadsBack | js/irfinder/irfinderTrack.js:110-116 | `K` ends the text iff `floor(n) > 999`. `parseInt` of the text gives `floor(n)`, or `floor(n/1000)` with the `K` |
| IRFinderRender.FrameOf | js/irfinder/irfinderTrack.js:141-145 | the plot height is the shared height less the margin, capped at the row height less the margin; the window ends one base after its last pixel |
| IRFinderRender.YScale | js/irfinder/irfinderTrack.js:155-157 | defined iff the row is a number and the range is not empty |
| IRFinderRender.RowBox | js/irfinder/irfinderTrack.js:156-160 | the box starts at `row * (plot height + margin)`; from a zero minimum it ends one plot height lower, and from a minimum below 0 it ends within that plot height |
| IRFinderRender.ZeroWithinPlot | js/irfinder/irfinderTrack.js:156-160 | for a range whose minimum is at or below 0, the value 0 sits within the plot, so the box does not reach past its row |
| IRFinderRender.Drawn | js/irfinder/irfinderTrack.js:148-161 | a feature outside the window keeps its old box; any other gets its row's box; nothing else changes |
| IRFinderRender.DrawAll | js/irfinder/irfinderTrack.js:148-162 | one drawn feature per input feature, in order |
| IRFinderRender.FindHit | js/irfinder/irfinderTrack.js:208 | the first feature whose box and span strictly contain the click, or none |
| IRFinderRender.PopupAt | js/irfinder/irfinderTrack.js:201-215 | no features or no hit gives `[]`; otherwise the hit feature's popup listing |
| IRFinderRender.RowsApart | js/irfinder/irfinderTrack.js:156-160 | the band of a lower row, `row * (plot height + margin)` plus one plot height, ends at or above where any higher row starts, for a non-negative plot height and margin. Boxes lie in their band only for a range minimum at or below 0 (RowBox) |
| IRFinderRender.NotBothHit | js/irfinder/irfinderTrack.js:160-208 | two drawn features that are on different rows, or disjoint on one row, are never hit by the same click, for a range with minimum at or below 0 and a non-negative margin |
| IRFinderRender.ClickFindsDrawn | js/irfinder/irfinderTrack.js:148-208 | in a stacked drawn list, a click inside the window and strictly inside a feature's span and box finds exactly that feature, even when other features lie outside the window with stale boxes, for a range with minimum at or below 0 and a non-negative margin |
| IRFinderRender.EarlierMissed | js/irfinder/irfinderTrack.js:156-208 | in a stacked drawn list, when a feature is hit by a click inside the window no earlier feature is, whether `draw` skipped it or not, for a range with minimum at or below 0 and a non-negative margin |
| IRFinderRender.PositiveMinRowsOverlap | js/irfinder/irfinderTrack.js:156-208 | with a configured range minimum above 0 the boxes of rows 0 and 1 overlap, and a click in row 1's plot on two such features finds the row-0 feature |
| IRFinderRender.SkippedNeverHitInWindow | js/irfinder/irfinderTrack.js:148-208 | a feature `draw` skipped is never hit by a click inside the window, whatever box it kept |
| IRFinderRender.FirstHitAt | js/irfinder/irfinderTrack.js:208 | the search returns index `i` when feature `i` is hit and no earlier one is |
| IRFinderRender.KeptStacked | js/irfinder/irfinderTrack.js:226-241 | the kept list of a disjoint layout has disjoint lane sharers and non-negative rows |
| IRFinderRender.KeptAfter | js/irfinder/irfinderTrack.js:241 | a lower bound on the starts of a lane's features carries over to the kept list |
| IRFinderRender.KeptParsed | js/irfinder/irfinderTrack.js:241 | the kept list holds parsed records only |
| IRFinderRender.ShownStacked | js/irfinder/irfinderTrack.js:218-241 | the features a filter pass returns are stacked, parsed and on non-negative rows |
| IRFinderRender.ClickShowsPopup | js/irfinder/irfinderTrack.js:201-215 | clicking inside the window and inside a drawn stacked feature shows that feature's popup listing, for a range with minimum at or below 0 and a non-negative margin |
| IRFinderRender.FilterDrawClick | js/irfinder/irfinderTrack.js:141-241 | filter, draw, then click inside the window and inside a returned feature's span and box: the popup lists that feature's columns, whatever other returned features lie outside the window, for a range with minimum at or below 0 and a non-negative margin |
| IRFinderRender.PopupAtHit | js/irfinder/irfinderTrack.js:208-210 | a hit at index `i` shows feature `i`'s listing |
| IRFinderRender.PopupSameTokens | js/irfinder/irfinderParser.js:53-57 | the listing depends only on the tokens, so annotation does not change it |
| IRFinderRender.RequestKey | js/irfinder/irfinderTrack.js:77 | the key `chr-start:end` is at least four characters |
| IRFinderRender.RequestKeyInjective | js/irfinder/irfinderTrack.js:77-78 | for non-negative coordinates, equal keys iff equal requests, so the memo never reuses another request's features |
| IRFinderRender.RequestKeyNegativeStartCollides | js/irfinder/irfinderTrack.js:77 | with a negative start, `a`,-1,5 and `a-`,1,5 share a key |
| IRFinderRender.SplitAtSeparator | js/irfinder/irfinderTrack.js:77 | a key's last separator before a run of digits splits it uniquely |
| IRFinderTrack.InitialHeight | js/irfinder/irfinderTrack.js:46 | an absent or zero height becomes 100 |
| IRFinderTrack.InitialMargin | js/irfinder/irfinderTrack.js:47 | the configured margin. Otherwise 20 from height 100, and below it a fifth of the height rounded to a whole number |
| IRFinderTrack.ManualRange | js/irfinder/irfinderTrack.js:49-54 | min is the configured one or 0; max is the configured one or 100; no ratio maximum |
| IRFinderTrack.RowHeight | js/irfinder/irfinderTrack.js:239-240 | never above 80. It is the height less the margin when that exceeds the margin and is at most 80; otherwise 80 |
| IRFinderTrack.ContentHeight | js/irfinder/irfinderTrack.js:247 | at least one lane's height plus margin |
| IRFinderTrack.BoxesFitPixelHeight | js/irfinder/irfinderTrack.js:141-249 | every drawn box with its margin lies within the content height, for a range with minimum at or below 0 and a non-negative margin |
| IRFinderTrack.IntronTrack.constructor | js/irfinder/irfinderTrack.js:42-64 | every setting is the configured value or its default, and autoscaling is on when asked or when no maximum is given. A manual range exists only without autoscaling. The feature list is undefined and nothing is laid out yet |
| IRFinderTrack.IntronTrack.Filter | js/irfinder/irfinderTrack.js:218-242 | the features get the layout's rows; lane count, splice maximum and row height are recorded; the shown features are returned; settings are unchanged. It needs a feature list, as `filter(undefined)` throws |
| IRFinderTrack.IntronTrack.GetFeatures | js/irfinder/irfinderTrack.js:76-84 | the source is asked iff the key differs from the last; the key is recorded; the fetched or held features are filtered |
| IRFinderTrack.IntronTrack.DoAutoscale | js/irfinder/irfinderTrack.js:118-132 | the depth kind stores the depth autoscale and the ratio kind the ratio autoscale; the rest of the state is unchanged |
| IRFinderTrack.IntronTrack.Frame | js/irfinder/irfinderTrack.js:141-145 | the frame uses the track's margin and range, with plot height at most the row height less the margin |
| IRFinderTrack.IntronTrack.Draw | js/irfinder/irfinderTrack.js:134-164 | the loop leaves every feature exactly as `DrawAll` defines it for the current frame |
| IRFinderTrack.IntronTrack.ComputePixelHeight | js/irfinder/irfinderTrack.js:245-250 | lanes times (row height + margin), NaN before any filter pass; it is stored as the pixel height |
| IRFinderTrack.IntronTrack.ToggleWarning | js/irfinder/irfinderTrack.js:402-415 | the warning filter is toggled and the features filtered again with it, giving new rows and lanes. The content height is then re-measured from the new lanes. Every other setting, the range and the request key are unchanged |
| IRFinderTrack.IntronTrack.ToggleIntronType | js/irfinder/irfinderTrack.js:418-431 | the intron-type filter is toggled and the features filtered again with it, giving new rows and lanes. The content height is then re-measured from the new lanes. Every other setting, the range and the request key are unchanged |
| IRFinderTrack.IntronTrack.ToggleAutoscale | js/irfinder/irfinderTrack.js:392-398 | autoscaling flips and the features are filtered again, giving new rows and lanes. The content height is then re-measured from the new lanes. Every other setting, the range and the request key are unchanged |
| IRFinderTrack.IntronTrack.SetColorBy | js/irfinder/irfinderTrack.js:382-390 | only the colour scheme changes: every other setting, the features, lanes, range, request key and content height are unchanged |
| IRFinderTrack.ToggleWarningTwiceRestores | js/irfinder/irfinderTrack.js:406-411 | toggling an unlisted warning twice restores the filter and therefore the layout |
| IRratio.RatioAutoscale | js/irfinder/irratioTrack.js:41-54 | empty list: `{0, 1, 1}`. Otherwise min 0, max is the autoscaled ratio maximum but at least 0.01, and the ratio maximum equals the maximum |
| IRratio.TickStep | js/irfinder/irratioTrack.js:63 | the step is at least 0.01 and five steps span the range |
| IRratio.NextTick | js/irfinder/irratioTrack.js:77 | the next tick is a whole number of hundredths, strictly above the current one, within 0.005 of current plus step |
| IRratio.NextTickSpends | js/irfinder/irratioTrack.js:72-77 | each tick at or below 1 consumes at least one hundredth up to 1, which bounds the loop |
| IRratio.Ticks | js/irfinder/irratioTrack.js:71-79 | nonempty iff the start passes the loop guard. The first tick is the start. Every tick is at most 1 and at most max + step. Later ticks are hundredths. Ticks increase strictly, and there are at most 101 - floor(100·start) of them |
| IRratio.AxisTicks | js/irfinder/irratioTrack.js:63-79 | the loop emits exactly the tick sequence from the range minimum |
| IRFinderRender.DepthTickStep | js/irfinder/irfinderTrack.js:180 | with a positive lane height the step is at least 1 iff the range is not empty |
| IRFinderRender.DepthTicks | js/irfinder/irfinderTrack.js:187-194 | nonempty iff the start passes the loop guard. The first tick is the start, each next one is the one before plus the step, all lie below max + step, and the last reaches max |
| IRFinderRender.DepthAxisTicks | js/irfinder/irfinderTrack.js:180-194 | the loop emits exactly the depth tick sequence from the range minimum, and nothing for an empty range |
| IRratio.TicksFromZero | js/irfinder/irratioTrack.js:71-77 | an axis from 0 ticks at 0 and, for a step of at most 0.995, next at the rounded step |
| IRratio.BarStart | js/irfinder/irratioTrack.js:92 | NaN iff the start is NaN |
| IRratio.BarEnd | js/irfinder/irratioTrack.js:93 | NaN iff the end is NaN |
| IRratio.BarUndoesPadding | js/irfinder/irratioTrack.js:92-93 | for a feature whose parsed start and end were widened by the flank margin (as `MakeFeature` widens every record), the bar runs from the record's own start rounded up to its own end rounded down, never outside the record |
| IRratio.BarHeight | js/irfinder/irratioTrack.js:97-98 | defined iff ratio and row are numbers and the range is not empty; then it is minus ratio times plot height over the range |
| IRratio.RatioLabel | js/irfinder/irratioTrack.js:102 | the label is a whole number of thousandths within 0.0005 of the ratio |
| IMokaTrack.TouchIsClosedOverlap | js/imoka/imokaTrack.js:217-219 | for forward spans the conflict test holds iff the closed intervals overlap, and it is symmetric |
| IMokaTrack.CommonBaseTouches | js/imoka/imokaTrack.js:217-219 | two k-mers covering a common base always conflict |
| IMokaTrack.InsertStable | js/imoka/imokaTrack.js:223 | one insertion step is a permutation that appends when nothing compares above the element |
| IMokaTrack.SortBy | js/imoka/imokaTrack.js:223-225 | the sort is a permutation |
| IMokaTrack.SortWithoutOrderKeepsInput | js/imoka/imokaTrack.js:223-225 | a comparator never reporting disorder leaves the input as is |
| IMokaTrack.AsWrittenSortKeepsOrder | js/imoka/imokaTrack.js:223-225 | the comparator without `return` makes the sort the identity |
| IMokaTrack.MaxLane | js/imoka/imokaTrack.js:244 | every lane is at most the maximum |
| IMokaTrack.MaxLaneHeld | js/imoka/imokaTrack.js:244-247 | a positive maximum is the lane of some k-mer |
| IMokaTrack.FreeFrom | js/imoka/imokaTrack.js:229-242 | the lane found is not held by any touching k-mer, and every lane from the start below it is |
| IMokaTrack.LowestFreeLane | js/imoka/imokaTrack.js:229-242 | the `changed` loop ends (the lane only grows, bounded by the highest lane held) with the lowest lane from 1 that no other touching k-mer holds |
| IMokaTrack.StackFrom | js/imoka/imokaTrack.js:227-245 | only lanes change; earlier k-mers keep theirs; each later one gets a lane of at least 1 |
| IMokaTrack.Stacked | js/imoka/imokaTrack.js:226-247 | order and spans are kept and every k-mer ends with a lane of at least 1 |
| IMokaTrack.StackLanes | js/imoka/imokaTrack.js:226-247 | the loop gives every k-mer its stacked lane and returns the highest lane |
| IMokaTrack.StackFromSeparates | js/imoka/imokaTrack.js:227-245 | each placement keeps all earlier pairs apart |
| IMokaTrack.StackedSeparates | js/imoka/imokaTrack.js:217-240 | after stacking, no two distinct touching k-mers share a lane |
| IMokaTrack.StackFromLowestFree | js/imoka/imokaTrack.js:229-242 | each lane is the lowest free one against the new lanes before it and the old lanes after it |
| IMokaTrack.FirstClicked | js/imoka/imokaTrack.js:122-131 | the first k-mer in the clicked lane covering the base, inclusive bounds, or none |
| IMokaTrack.StackedClickFindsKmer | js/imoka/imokaTrack.js:120-131 | after stacking, a click on a base of a k-mer in its lane finds that k-mer |
| IMokaTrack.AccuracyRed | js/imoka/imokaTrack.js:159-160 | 0 without a best value. NaN without a threshold or with threshold 100. A byte when the value lies between threshold and 100: 0 at the threshold and 255 at 100 |
| IMokaTrack.ShadeInRange | js/imoka/imokaTrack.js:159-160 | between the threshold and 100 the shade is between 0 and 255 |
| IMokaTrack.ShadeAtEnds | js/imoka/imokaTrack.js:159-160 | the shade is 0 at the threshold and 255 at 100 |
| IMokaTrack.AccuracyRedMonotone | js/imoka/imokaTrack.js:159 | a better value never gets less red |
| IMokaTrack.KmerPaint | js/imoka/imokaTrack.js:156-163 | strand colours by strand, the accuracy shade by accuracy, black otherwise |
| IMokaTrack.StackedWellStacked | js/imoka/imokaTrack.js:226-247 | a stacked non-empty list has every lane from 1, touching k-mers in different lanes, and reaches its highest lane, which is at least 1 |
| IMokaTrack.KmerTrack.constructor | js/imoka/imokaTrack.js:43-77 | 20-pixel lanes for `kmers` requests, 5 otherwise; one lane; colour by accuracy |
| IMokaTrack.KmerTrack.SetThreshold | js/imoka/imokaTrack.js:58-60 | the info response's threshold is recorded |
| IMokaTrack.KmerTrack.InitFeatures | js/imoka/imokaTrack.js:220-248 | an empty list is stored and `max_y` kept. Otherwise the stored features are the stacked list and `max_y` is its highest lane, at least 1. The track stays well stacked: touching k-mers in different lanes |
| IMokaTrack.KmerTrack.ComputePixelHeight | js/imoka/imokaTrack.js:250-254 | one lane's height for an empty list. Otherwise it stacks the list, `max_y` becomes its highest lane, the height is `(max_y + 1) * barHeight`, and every bar fits in it |
| IMokaTrack.KmerTrack.PopupData | js/imoka/imokaTrack.js:117-133 | the k-mer handed to the click handler is the first one `FirstClicked` finds in lane `floor(y / barHeight)` |

Notes on the table:

- `IRFinderLayout.LayoutShape` (`js/irfinder/irfinderTrack.js:219-238`) states:
  - there is at least one lane;
  - the splice maximum is at least 1 and bounds every kept feature's count;
  - row -1 holds exactly the filtered-out features;
  - every kept row is below the lane count.
- A JavaScript number prints as decimal digits. The model has no exponent form, so `RequestKeyInjective` and `Number2TextReadsBack` concern integers printed that way.

## Left out

- The track registry: a map from names to constructors with no logic of its own.
- **Canvas drawing:**
  - `drawIntronDepth`;
  - the strokes and fills of `drawIntronRatio` and of iMOKA `renderAlignment`;
  - the painting in both `_paintAxis` methods.

  `drawIntronDepth` is not modelled at all: it computes its flank boxes, depth polygon and splice arcs only to paint them, and nothing the track keeps depends on them. Of the others, only the geometry and colour arithmetic is modelled: the bar of `drawIntronRatio`, the colour of `renderAlignment` and the tick values of both `_paintAxis` methods.
- IRFinderRender.DepthAxisTicks: requires a positive lane height. A lane height of zero or below needs a negative configured margin and a height no greater than it. A zero height gives an infinite step (a single tick). A negative one gives a step of 0 or below for a non-empty range, and then the JavaScript loop may never end.
- **External collaborators:**
  - The browser's autoscale helper is the `scale` parameter of the autoscale functions.
  - The feature source is the `fetch` parameter of `GetFeatures`.
  - The line reader is a sequence of lines.
  - The track base class, menu building and view refreshes (`forceUpdate`) are not modelled. A toggle's effect is modelled as the filter pass `forceUpdate` runs, then the host's `checkContentHeight`, taken to re-measure through `computePixelHeight`. The host view is not part of this model.
- Asynchrony: `getFeatures` is sequential, and the iMOKA info request is the `SetThreshold` call.
- The iMOKA `getFeatureColor`, `forceUpdate`, `dispose` and `getFeatures`. The first refers to an undefined name and to fields the class never sets. The second calls a method the class lacks. The last two only clear or forward.
- The iMOKA `draw`: its re-stack test compares list identity, which values cannot express. Its stacking effect is `InitFeatures`.
- `description`, `popoverWindow` use and the `featureType`, `groups`, `predictors` and `colors` fields are not modelled: they are stored or displayed only.
- **IEEE-754:**
  - Infinity, signed zero and a division by zero are not modelled. Each is taken as NaN (`None`) where it can arise.
  - `parseInt` and `parseFloat` read an optional sign and decimal digits only. There is no exponent, hexadecimal or leading whitespace.
- IRratio.BarStart: requires a positive `bpPerPixel`, which the browser always supplies; a zero scale (infinite pixel positions) is not modelled.
- IRratio.BarEnd: requires a positive `bpPerPixel`, for the same reason.
- IRFinderTrack.IntronTrack.Draw: requires a filter pass and a data range to exist, as they always do before the browser draws. Drawing before them (`NaN` rows, a throw on the missing range) is not modelled.
- IRFinderTrack.IntronTrack.Draw: returns the drawn features rather than writing the box into objects shared with the track's own list. No modelled operation reads the box through the track's list.
- IRFinderRender.RowsApart: states the band arithmetic only; the boxes stay within their bands just for a range minimum at or below 0. A manual range from `config.min || 0` with `config.min` above 0 puts the value 0 below the plot, and the box then reaches into later rows (PositiveMinRowsOverlap).
- IRFinderRender.NotBothHit: proved for a range minimum at or below 0 and a non-negative margin only. With a minimum above 0 two rows' boxes overlap and both features can be hit (PositiveMinRowsOverlap).
- IRFinderRender.ClickFindsDrawn: proved for a range minimum at or below 0 and a non-negative margin only. With a minimum above 0 a click can find a feature on an earlier row instead (PositiveMinRowsOverlap).
- IRFinderRender.EarlierMissed: proved for a range minimum at or below 0 and a non-negative margin only, for the same reason.
- IRFinderRender.ClickShowsPopup: proved for a range minimum at or below 0 and a non-negative margin only; with a minimum above 0 the popup may list another row's feature.
- IRFinderRender.FilterDrawClick: proved for a range minimum at or below 0 and a non-negative margin only; with a minimum above 0 the round trip can fail (PositiveMinRowsOverlap).
- IRFinderTrack.BoxesFitPixelHeight: proved for a range minimum at or below 0 and a non-negative margin only. With a minimum above 0 the last row's box reaches past the content height.
- IRFinderTrack.IntronTrack.Filter: requires a feature list. Before the first request is answered the source's `filter(undefined)` throws, and so does a toggle (`forceUpdate`) then; the toggles carry the same requirement.
- IMokaTrack.KmerTrack.PopupData: reads the features of the last stacking; a track that was never stacked has an empty list here, where the source would throw.
- IMokaTrack.KmerPaint: the accuracy shade with a missing threshold is NaN here; the source throws when the info response has not arrived.
- Both tick loops are repeated once per row, with the same ticks each time; the model gives one row's sequence.
