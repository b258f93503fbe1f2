# line-chart in Dafny

A model of the logic of the line-chart widget: canvas charts of several
named series over one timeline, a minimap under the chart whose slider
picks the visible window, and a legend that switches series on and off.
The repository holds two generations of the widget, and the model covers
both.

- **The first version** (`Chart.js`, `ChartMap.js`, `Stream.js`, `helpers.js`,
  `settings.js`) scales every chart by one zoom ratio, keys its value labels
  by value, places the date labels greedily and passes the viewport and the
  set of displayed charts through observer streams.
- **The later version** (`src/`) consists of:
  - the column parser;
  - the throttled scan for the vertical borders of the visible window;
  - the "nice gridline" search for the lower border;
  - the per-frame springs that animate opacities, the lower border and the
    vertical scale;
  - the keyed, fading value and date labels;
  - the legend toggle;
  - the tooltip placement;
  - a minimap that rescales when datasets are hidden or shown.
- **The standalone minimap demo** (`chart-map/chart-map.js`) reports the
  slider's position by reading it back from the slider's CSS transform.

Every operation is a pure function (the two loop algorithms are methods)
over immutable data. Some of the source's values are not finite: `±Infinity`
as the extreme of no values, and the `Infinity` or `NaN` of a division by
zero. Each such value is represented where it arises:
- `Ext` is a number extended with both infinities;
- `Option` marks a value that is not finite where it feeds a division.

The DOM, the canvas and the clock are left out: element sizes, touch
coordinates and `performance.now()` readings are parameters.

One module per source component:
- `Num`: shared arithmetic, `Math.max`/`Math.min` over lists, concatenation;
- `Spring`: the per-frame animation step;
- `Throttle`: rafThrottle;
- `Stream`;
- `Tooltip`;
- `Helpers`;
- `DateText`: both date formatters;
- `Parser`;
- `Labels`: the keyed label maps;
- `Plot`;
- `YLabels`;
- `XLabels`;
- `VerticalBorders`;
- `LowerBorder`;
- `Viewport`;
- `ChartFrame`: update and toggleActiveDatasets;
- `LegacyChart`: `Chart.js`;
- `Slider`: the shared clamp arithmetic of the three minimaps;
- `Minimap`: `src/chart-map/chart-map.js`;
- `LegacyMap`: `ChartMap.js`;
- `DemoMap`: `chart-map/chart-map.js`.

## Model

| member | source | states |
|---|---|---|
| Num.SeqMax | src/utils/get-min-max-range.js:6 | `Math.max` of a list: -Infinity for no value, otherwise a value of the list that no value of the list exceeds |
| Num.SeqMin | src/chart-map/chart-map.js:13-18 | `Math.min` of a list: Infinity for no value, otherwise a value of the list that no value of the list undercuts |
| Num.MaxDependsOnlyOnValues | src/utils/get-min-max-range.js:3-6 | two lists holding the same values, in any order and with any repetition, have the same maximum |
| Num.MinDependsOnlyOnValues | src/chart-map/chart-map.js:13-18 | two lists holding the same values have the same minimum |
| Num.ExtremaOfSublist | src/chart/chart.js:453-462 | a list whose values all occur in another has a maximum no larger and a minimum no smaller than the other's |
| Num.Flatten | src/utils/get-min-max-range.js:3-4 | the `concat` reduce: a value is in the concatenation exactly when it is in one of the lists |
| Num.FlattenPermutation | src/utils/get-min-max-range.js:3-4 | reordering the lists keeps the values of their concatenation |
| Num.ExtSeqMax | chart-map/chart-map.js:51-54 | the outer `Math.max` over per-list maxima: -Infinity for no list, otherwise one of the maxima and no smaller than any |
| Num.ExtSeqMin | chart-map/chart-map.js:59-62 | the outer `Math.min` over per-list minima: Infinity for no list, otherwise one of the minima and no larger than any |
| Num.MaximaOf | chart-map/chart-map.js:53 | one `Math.max` per list, in list order |
| Num.MinimaOf | chart-map/chart-map.js:61 | one `Math.min` per list, in list order |
| Num.MaxOfMaxima | Chart.js:36 | the maximum of the per-list maxima is the maximum of the concatenation of the lists |
| Num.MinOfMinima | chart-map/chart-map.js:57-63 | the minimum of the per-list minima is the minimum of the concatenation of the lists |
| Num.MaxUnique | src/utils/get-min-max-range.js:6 | a list has one maximum: two values both satisfying the definition are equal |
| Num.MinUnique | src/chart-map/chart-map.js:17 | a list has one minimum |
| Num.Div | ChartMap.js:239 | a quotient exists exactly for a finite non-zero divisor, and times the divisor gives the dividend back |
| Num.Ratio | chart-map/chart-map.js:71 | `a / (hi - lo)` exists exactly for finite, distinct ends, and times `hi - lo` gives `a` back |
| Spring.FrameDelta | src/chart/chart.js:173-175 | the frame time never exceeds the cap, is 0 before the first frame (a falsy previous timestamp), and is non-negative while the clock does not run backwards |
| Spring.GainBounded | src/chart/chart.js:187 | the gain `rate * delta` lies in `[0, rate * cap]` while the clock does not run backwards |
| Spring.MainChartGain | src/chart/chart.js:175-187 | the main chart's gain `0.008 * min(100, delta)` lies in `[0, 0.8]` |
| Spring.MinimapGain | src/chart-map/chart-map.js:123-125 | the minimap's gain `0.008 * min(50, delta)` lies in `[0, 0.4]` |
| Spring.Step | src/chart/chart.js:197-199 | one spring step snaps onto a target closer than epsilon, and for a gain in `[0, 1]` never overshoots and never widens the gap (it narrows it strictly unless it lands) |
| Spring.StepShrinksGap | src/chart/chart.js:197-199 | a step that does not snap leaves `(1 - k)` times the gap |
| Spring.Iterate | src/chart/chart.js:197-199 | any number of frames with a gain in `[0, 1]` keep the value between where it started and its target, and never widen the gap |
| Spring.ChangingIffNonzero | src/chart/chart.js:201 | the flag `!Math.abs(diff) < Number.EPSILON`, where `!` binds first, is raised exactly when the gap is not zero, however small |
| Spring.TargetIsFixed | src/chart-map/chart-map.js:134-140 | a value on its target stays there for any number of frames |
| Spring.StepCloses | src/chart/chart.js:219-221 | a frame that does not land on the target closes the gap by at least `k * epsilon` |
| Spring.IterateCloses | src/chart/chart.js:232-234 | after `n` frames the value is on target or the gap has closed by at least `n * k * epsilon` |
| Spring.Settles | src/chart/chart.js:232-234 | with a positive gain the spring lands exactly on its target after more than `gap / (k * epsilon)` frames |
| Throttle.Create | src/utils/raf-throttle.js:3-7 | a new throttle awaits its first call, has no result yet, and starts its clock at creation |
| Throttle.Call | src/utils/raf-throttle.js:9-19 | a call runs `f` on the first call or once the interval has passed, restarting the clock; otherwise it changes nothing; either way it returns the latest result of `f` |
| Throttle.Reset | src/utils/raf-throttle.js:20 | the reset sets the clock to 0 and keeps everything else |
| Throttle.FirstCallFires | src/utils/raf-throttle.js:13 | the first call always runs `f`, however little time has passed |
| Throttle.LaterCallFiresIff | src/utils/raf-throttle.js:13-19 | once `f` has run, a later call runs it again exactly when the interval has passed since then, and otherwise returns the earlier result |
| Throttle.ResetThenFires | src/utils/raf-throttle.js:13-20 | after a reset, any call at a clock reading of at least the interval runs `f` |
| Throttle.InvocationsSpaced | src/utils/raf-throttle.js:13-16 | without a reset, the runs of `f` are at least the interval apart, also from the last run before the calls |
| Throttle.InvocationsAreCalls | src/utils/raf-throttle.js:9-19 | `f` runs only at the clock readings of calls, never more often than it is called |
| Stream.Create | Stream.js:2-5 | a new stream holds its initial value and no subscribers |
| Stream.AddEvent | Stream.js:11-16 | an event becomes the value and reaches every subscriber once, in subscription order, with the new value |
| Stream.Notify | Stream.js:13-15 | the `forEach` calls each subscriber once, in subscription order, with the same value |
| Stream.Subscribe | Stream.js:18-20 | subscribing appends the subscriber last and leaves the value alone |
| Stream.EachSubscriberOnce | Stream.js:11-16 | the recipients of an event are exactly the subscription list, as a sequence and as a multiset |
| Stream.LateSubscriber | Stream.js:11-20 | a subscriber added after an event is not called for it, and is called last for the next event, whose value the stream then keeps |
| Tooltip.TooltipPosition | src/tooltip/tooltip.js:47-71 | the tooltip hides exactly when the outward-rounded pointer is off the canvas; a shown one that fits stays on the canvas and always sits 40px down |
| Tooltip.PositionIsClamp | src/tooltip/tooltip.js:59-67 | for a tooltip that fits, the branch chain clamps `x - 24` into `[0, canvasWidth - width]` |
| Tooltip.DefaultPosition | src/tooltip/tooltip.js:65-66 | a pointer with room on both sides puts the tooltip 24px to its left |
| Helpers.GetDimension | helpers.js:1-6 | a whole grid step exists for a non-zero line count, and for a positive one it is the least whole step whose `lines` multiples reach maxPoint |
| Helpers.GetMultiplier | helpers.js:8-10 | for a positive maxPoint, the largest whole number of maxPoint-sized steps that fit into the height |
| Helpers.LabelWidthAdditive | helpers.js:12-14 | label widths add up: two texts side by side are as wide as their two labels, and the empty text takes no room |
| Helpers.LabelWidthMonotone | helpers.js:12-14 | a longer text never gets a narrower label |
| Helpers.MinMaxRange | src/utils/get-min-max-range.js:1-7 | the range starts at 0 and ends at a value of some dataset that no value exceeds, or at -Infinity when there are no values |
| Helpers.MaxOfAll | src/utils/get-min-max-range.js:3-6 | the maximum of the concatenation is -Infinity exactly for no values, otherwise a value of some dataset that bounds every value |
| Helpers.MinMaxRangeOrderFree | src/utils/get-min-max-range.js:3-6 | the range does not depend on the order of the datasets |
| DateText.NatText | src/utils/format-date.js:6-7 | the decimal text of a number is non-empty and all digits, one digit exactly below 10 and two for 10..99 |
| DateText.DigitRoundTrip | src/utils/format-date.js:6 | each digit's character reads back as that digit |
| DateText.NatTextRoundTrip | src/utils/format-date.js:6-7 | the decimal text of a number reads back as the number |
| DateText.FormatShort | helpers.js:16-20 | the first version's label is the month abbreviation, a space, then the unpadded day, five or six characters in all |
| DateText.PaddedDay | src/utils/format-date.js:6 | the day is always two digits |
| DateText.FormatPadded | src/utils/format-date.js:2-7 | the later label is the month abbreviation, a space, and two digits, six characters in all |
| DateText.PaddedDayRoundTrip | src/utils/format-date.js:6 | the padded day reads back as the day |
| DateText.MonthIndex | src/utils/format-date.js:4 | reading an abbreviation back gives its month, or -1 for a text that is not one |
| DateText.PaddedRoundTrip | src/utils/format-date.js:2-7 | the padded label reads back as the month and day it was made from |
| DateText.PaddedInjective | src/utils/format-date.js:2-7 | distinct dates (month and day) give distinct padded labels, so keying date labels by text loses no date |
| DateText.ShortInjective | helpers.js:16-20 | distinct dates give distinct short labels |
| Parser.AxisName | src/parser.js:28 | the timeline key is the first key typed "x", and none exactly when no key is |
| Parser.SplitColumns | src/parser.js:31-44 | the datasets are keyed by the headers of exactly the columns not named by the axis |
| Parser.TimelineIsLastAxisColumn | src/parser.js:35-39 | the timeline is the last column named by the axis, or empty when none is |
| Parser.DatasetIsLastColumn | src/parser.js:41 | each dataset holds the values of the last non-axis column with its key |
| Parser.ParseChart | src/parser.js:23-51 | missing types, names and colors become empty, and a missing column list gives an empty timeline and no datasets |
| Parser.ParseData | src/parser.js:16-58 | input that does not parse, or a null record, gives `[]`; otherwise there is one parsed chart per record, in order |
| Parser.StandardChart | src/parser.js:28-44 | a chart with an "x" column and one data column gets the first as its timeline and the second as its only dataset |
| Plot.VerticalMapping | src/chart/chart.js:425-436 | with the frame's scale the lower border is drawn on the bottom of the plot, the maximum on its top, and a larger value higher up |
| Plot.HigherAbove | src/chart/chart.js:436 | with a positive scale a larger value is drawn higher up |
| Plot.PointX | src/chart/chart.js:438 | the first timestamp is drawn on the left edge, and with a positive scale exactly the later timestamps to its right |
| Plot.PointY | src/chart/chart.js:436 | a value on the lower border is drawn on the bottom of the plot, and with a positive scale exactly the values above the border are drawn higher |
| Plot.HorizontalMapping | src/chart/chart.js:438 | with `ratioX = virtualWidth / (last - first)` the first timestamp is drawn at the left edge and the last at the right edge |
| Viewport.VirtualWidth | src/chart/chart.js:18-20 | the virtual width exists for a non-empty viewport, times its width gives the container width, and is never narrower than the container |
| Viewport.OffsetPlacesViewport | src/chart/chart.js:22-24 | after the shift a canvas point lands at screen position 0 exactly when it is the viewport's start, and on the container exactly when it lies in the visible slice |
| Viewport.VisibleSlice | src/chart/chart.js:176-177 | a well-formed viewport shifts the canvas left, and its slice lies inside the canvas and is exactly as wide as the container |
| Viewport.MoveKeepsWidth | src/chart/chart.js:14-20 | shifting the viewport keeps the virtual width |
| Labels.Retarget | src/chart/chart.js:296-298 | retargeting sets the fill target and, for a stroked label, the stroke target, and keeps position, offset and current opacities |
| Labels.RetargetTwice | src/chart/chart.js:296-298 | retargeting twice to the same targets is retargeting once |
| Labels.FadeAndPrune | src/chart/chart.js:284-291 | the labels whose opacity shows as 0 are dropped and every other label is told to fade out |
| Labels.FadeAll | Chart.js:148-153 | every label is told to fade out, fill and stroke, and none is dropped |
| Labels.Admit | src/chart/chart.js:293-302 | after admitting, exactly the tracked keys and the wanted keys are tracked |
| Labels.AdmitKeepsUnwanted | src/chart/chart.js:293-302 | a tracked label that is not wanted is left as it was |
| Labels.AdmitRetargetsTracked | src/chart/chart.js:294-298 | a tracked label that is wanted is retargeted, keeping its current opacity |
| Labels.AdmitInsertsNew | src/chart/chart.js:299-300 | a new key is inserted with its first wanted label, retargeted only when the key is wanted again later |
| Labels.AdmitLast | src/chart/chart.js:293-302 | admitting a list is admitting all but its last entry, then retargeting or inserting the last one |
| Labels.Animate | src/chart/chart.js:313-317 | with gains in `[0, 1]` each opacity moves towards its target without overshooting, and the targets and position are kept |
| Labels.AnimateAll | src/chart/chart.js:310-317 | the drawing loop animates every tracked label and tracks no other |
| Labels.FadingLabelFalls | src/chart/chart.js:285-289 | a label fading out stays non-negative and one frame strictly lowers its opacity; the drop after enough frames is Labels.FadedLabelDropped |
| Labels.FramesOneByOne | src/chart/chart.js:313-317 | several frames, fill and stroke each moving its own gain of the way, are the drawing loop's frames one after the other, and keep the position, offset and targets |
| Labels.FillBound | src/chart/chart.js:316 | a fill fading out over `n` frames with gains of at least `p0` stays non-negative, and times `1 + n * p0` is at most where it started |
| Labels.FadeBound | src/chart/chart.js:313-317 | after `n` frames with fill gains of at least `p0`, a fading label's opacity stays non-negative and times `1 + n * p0` is at most where it started |
| Labels.FadedLabelDropped | src/chart/chart.js:284-317 | a label no longer wanted shows as 0 after `200 * opacity / p0` frames with gains of at least `p0`, and the next reconciliation removes it |
| YLabels.TickValues | src/chart/chart.js:268-279 | a non-zero scale gives six gridline values, each the exact value floored to thousandths and within 0.001 below it |
| YLabels.TruncatedTick | src/chart/chart.js:277 | flooring to thousandths never adds and loses less than 0.001 |
| YLabels.Wanted | src/chart/chart.js:270-279 | the wanted labels are one invisible label per gridline value, aiming at full fill and stroke |
| YLabels.Reconcile | src/chart/chart.js:284-302 | after the two loops every wanted value is tracked, and every tracked value was tracked before or is wanted |
| YLabels.ReconcileSpec | src/chart/chart.js:284-302 | every wanted value is tracked; a tracked value survives exactly when wanted or still visible; survivors fade out or retarget to 0.4 and 0.16 with their opacity kept; new values start invisible |
| YLabels.LabelHeight | src/chart/chart.js:312 | each value label is drawn where a data point of the same value is drawn |
| YLabels.LabelGainsBounded | src/chart/chart.js:281-282 | the label gains stay within `[0, 0.5]`, so fill and stroke move towards their targets without overshooting |
| XLabels.HalveStep | src/chart/chart.js:343-345 | the halving loop stops at the first halving of the initial step that does not exceed the bound |
| XLabels.HalvingShrinksQuotient | src/chart/chart.js:343-345 | halving a step above the bound lowers the whole part of its ratio to the bound, so the loop ends |
| XLabels.FallingStepNeverFits | src/chart/chart.js:343-345 | on a falling timeline with a visible fraction over `1 / 1.68`, every halving of the negative initial step stays above the bound, so the loop never ends |
| XLabels.Offset | src/chart/chart.js:348-350 | only the first timestamp gets offset 0; every other laid date is shifted left by less than a label width |
| XLabels.DateLabelFadesIn | src/chart/chart.js:352-358 | a new date label starts invisible on its date and offset, heading for 0.4, and its first frame makes it visible without passing 0.4 |
| XLabels.LayDates | src/chart/chart.js:347-361 | the dates are laid at whole steps from the first timestamp, all before the last, and one more step would reach it; none is laid for a timeline without span |
| XLabels.StepsAscend | src/chart/chart.js:347-361 | the laid dates strictly rise and only the first is the start |
| XLabels.WantedLabels | src/chart/chart.js:336-370 | there is no list exactly for a falling timeline with a visible fraction over `1 / 1.68`, where the halving loop never ends; otherwise the wanted labels are the laid dates, rising, from the first timestamp with their text and offsets, and then the right-aligned last timestamp, and only a rising timeline has more than the last label |
| XLabels.Reconcile | src/chart/chart.js:372-388 | every wanted date text is tracked, and a tracked text survives exactly when wanted or still visible |
| XLabels.ReconcileKeepsTracked | src/chart/chart.js:372-388 | a visible date label that is wanted again keeps its opacity and heads for 0.4; one no longer wanted heads for 0 |
| VerticalBorders.WindowValues | src/chart/chart.js:456-460 | the windowed values of a series are exactly its values at indices whose timestamp lies in the window |
| VerticalBorders.Window | src/chart/chart.js:453-462 | the windowed values of all series are exactly their values at in-window indices |
| VerticalBorders.LowMargin | src/chart/chart.js:464 | the low margin is finite exactly for a finite minimum, and then is `0.99 * min` floored to thousandths: at most it and less than 0.001 below |
| VerticalBorders.HighMargin | src/chart/chart.js:464 | the high margin is finite exactly for a finite maximum, and then is `1.01 * max` floored to thousandths: at most it and less than 0.001 below |
| VerticalBorders.MarginsOfNonNegative | src/chart/chart.js:464 | for a non-negative range the low margin lies in `[0, v]` and, from 0.1 up, the high margin is at least `v` |
| VerticalBorders.MarginKeepsKind | src/chart/chart.js:464 | the margins keep an empty window's infinities |
| VerticalBorders.VerticalBorders | src/chart/chart.js:445-465 | no active series keeps the previous borders; otherwise the borders are the margined minimum and maximum of the windowed values, infinite exactly when the window is empty |
| VerticalBorders.ExtremaStep | src/chart/chart.js:458-459 | folding one more value with `Math.min`/`Math.max` gives the extremes of the longer list |
| VerticalBorders.ScanExtremes | src/chart/chart.js:446-462 | the two nested loops compute the minimum and maximum of the windowed values |
| VerticalBorders.ScanSeries | src/chart/chart.js:456-461 | the inner loop folds one series' windowed values into the extremes of what came before |
| VerticalBorders.WindowValuesStep | src/chart/chart.js:456-460 | one more index adds its value exactly when its timestamp is in the window |
| VerticalBorders.WindowStep | src/chart/chart.js:453-455 | one more series adds its windowed values |
| VerticalBorders.ExtremaUnique | src/chart/chart.js:446-447 | the scan's extremes are the unique minimum and maximum |
| VerticalBorders.GetVerticalBorders | src/chart/chart.js:445-465 | the loops of the source compute the borders the declarative definition states |
| VerticalBorders.WiderWindowKeepsValues | src/chart/chart.js:457 | widening the window never loses a value |
| VerticalBorders.WiderWindowWiderRange | src/chart/chart.js:453-462 | widening the window never lowers the maximum, never raises the minimum, so never shrinks the range |
| LowerBorder.FindHighLine | src/chart/chart.js:32 | `findIndex`: the first gridline above minY from the given index on, or none when none is above it |
| LowerBorder.Dimension | src/chart/chart.js:27 | five spacings above the candidate reach maxY, and the spacing is positive for a candidate below maxY |
| LowerBorder.GridlineWithin | src/chart/chart.js:28-30 | with a non-negative spacing the six gridlines `dimension * index + lowerBorder` stay between the candidate and five spacings above it |
| LowerBorder.NextCandidate | src/chart/chart.js:27-33 | the next candidate exists exactly when some gridline lies above minY |
| LowerBorder.GridlinesSpelled | src/chart/chart.js:27-30 | the six gridlines run from the candidate up to maxY in equal spacings |
| LowerBorder.ClimbStep | src/chart/chart.js:32-33 | from at or below minY the next candidate is the largest gridline not above minY, stays put exactly when the next gridline is above minY, and otherwise gains a full spacing |
| LowerBorder.DescentStep | src/chart/chart.js:32-33 | a candidate above minY drops by one spacing |
| LowerBorder.DegenerateStep | src/chart/chart.js:32-33 | when maxY does not exceed minY no gridline is above minY and the next candidate is NaN |
| LowerBorder.RunawayStep | src/chart/chart.js:32-33 | a candidate above both minY and maxY moves further up on every step |
| LowerBorder.ClimbDecreases | src/chart/chart.js:35-37 | a climbing step that moves lowers the termination measure |
| LowerBorder.DescentDecreases | src/chart/chart.js:35-37 | a descending step that stays above minY lowers the termination measure |
| LowerBorder.LowerBorder | src/chart/chart.js:26-38 | on the domain where it terminates, the search never ends above minY, never below the floor of a start at or below minY, and ends on the start or a whole number |
| LowerBorder.ChartLowerBorderBounds | src/chart/chart.js:209-211 | the chart's search from 0 over a non-negative minimum ends in `[0, minY]` |
| LowerBorder.TopAtZeroStops | src/chart/chart.js:26-38 | with maxY 0 over a negative minimum, the candidate 0 is kept at once |
| LowerBorder.ScaleLowerBorder | src/chart/chart.js:209-211 | the corrected border: the search from 0 where it stops with a finite scale (at most min, non-negative for a non-negative min, 0 or whole), 0 for a top at zero, where the source also stops, and the previous border where the source's search never stops |
| LowerBorder.ZeroRangeHasNoGridline | src/chart/chart.js:26-38 | with every visible value 0 there is no gridline above minY and the search recurses on NaN for ever |
| LowerBorder.NegativeRangeRunsAway | src/chart/chart.js:26-38 | with every visible value at -5 the margins invert the range and the candidate climbs away from it |
| LowerBorder.RunawayNeverStops | src/chart/chart.js:32-37 | a candidate above both minY and maxY is never kept, for any number of steps |
| LowerBorder.OutsideDomainNeverStops | src/chart/chart.js:26-38 | over finite borders, the search from 0 outside ScaleInDomain and TopAtZero never stops, for any number of steps |
| LowerBorder.DomainStops | src/chart/chart.js:26-38 | on ScaleInDomain and TopAtZero the first step is defined, and on TopAtZero it keeps 0 at once |
| ChartFrame.Initial | src/chart/chart.js:92-107 | a new chart shows every dataset fully, awaits its first scan and requests a redraw |
| ChartFrame.Active | src/chart/chart.js:203-205 | the active values are exactly those of datasets heading for opacity 1, none exactly when none is heading there |
| ChartFrame.WindowBounds | src/chart/chart.js:180-186 | an ordered viewport gives an ordered window, and the whole viewport over a whole span gives the whole timeline |
| ChartFrame.ScaledFloorsOrdered | src/chart/chart.js:185-186 | flooring two ordered fractions of a non-negative span keeps them ordered |
| ChartFrame.WholeViewportRounds | src/chart/chart.js:180-181 | rounding 0 and 1 to hundredths keeps them |
| ChartFrame.RatioY | src/chart/chart.js:212 | the vertical scale is not finite exactly when the maximum equals the lower border; otherwise it times the range gives the plot height, and an infinite maximum gives 0 |
| ChartFrame.OpacityFlagIffMoving | src/chart/chart.js:201 | the opacity change flag is raised exactly when some opacity is off its target |
| ChartFrame.StepOpacities | src/chart/chart.js:193-200 | each dataset's opacity takes one spring step and nothing else about it changes |
| ChartFrame.Drawn | src/chart/chart.js:251-255 | the drawn datasets are exactly those whose opacity shows at two decimals, in order |
| ChartFrame.Follow | src/chart/chart.js:215-239 | a drawn border or scale jumps to its target while unset; otherwise it takes one step without overshooting and reports a change exactly when off target |
| ChartFrame.FrameBorders | src/chart/chart.js:208 | the throttled scan returns fresh borders of the active datasets when it fires, the kept borders otherwise, and then holds what it returned |
| ChartFrame.Frame | src/chart/chart.js:170-263 | the corrected frame, with the search replaced by ScaleLowerBorder, fails exactly on a non-finite scale; otherwise it redraws exactly when requested or something moved, draws the visible datasets, and keeps the lower border at most the minimum |
| ChartFrame.FrameStepsOpacities | src/chart/chart.js:193-200 | in a frame every opacity ends between where it was and its target, and nothing else about a dataset changes |
| ChartFrame.FrameFollowsTargets | src/chart/chart.js:215-239 | the drawn lower border and scale start on their targets and afterwards move towards them without overshooting |
| ChartFrame.FrameKeepsScannedBorders | src/chart/chart.js:208 | the borders a frame keeps are those the throttled scan returned |
| ChartFrame.FiniteOnDomain | src/chart/chart.js:209-212 | with datasets active, the corrected frame goes through on ScaleInDomain and fails on a top at zero, where the search stops at 0 = max and the scale `chartHeight / 0` is not finite |
| ChartFrame.FirstFrame | src/chart/chart.js:102-107 | a new chart's first frame scans, redraws, and draws every dataset |
| ChartFrame.JsDivide | src/chart/chart.js:212 | a JavaScript quotient is finite exactly for a non-zero divisor, and Infinity exactly for a positive dividend over 0 |
| ChartFrame.RatioYAsWritten | src/chart/chart.js:212 | the scale as JavaScript computes it is finite exactly where the corrected RatioY is defined, and equal to it; a maximum on the border gives Infinity |
| ChartFrame.FollowAsWritten | src/chart/chart.js:228-239 | the drawn scale as written agrees with the corrected spring on finite numbers, and once not finite stays NaN whatever the target |
| ChartFrame.LowerBorderAsWritten | src/chart/chart.js:209-211 | the search as written fails exactly with datasets active outside ScaleInDomain and TopAtZero, and elsewhere gives the corrected border |
| ChartFrame.FrameAsWritten | src/chart/chart.js:170-263 | update as written throws exactly with datasets active outside ScaleInDomain and TopAtZero, leaving the stepped opacities, the scanned borders and the timestamp stored; a frame that runs keeps a valid state, clears the redraw request and records the timestamp (how it agrees with the corrected frame is ChartFrame.AsWrittenAgrees) |
| ChartFrame.AsWrittenAgrees | src/chart/chart.js:170-263 | with no dataset active or borders in ScaleInDomain, a corrected frame that goes through is exactly the frame as written |
| ChartFrame.ZeroScaleLeavesReals | src/chart/chart.js:209-238 | as written, a top at zero sets the border to 0, the scale to Infinity, and the drawn scale leaves the reals |
| ChartFrame.ScaleStaysLost | src/chart/chart.js:228-236 | as written, a drawn scale that has left the reals is NaN after every later frame that runs |
| ChartFrame.InitWiring | src/chart/chart.js:143-154 | init wires the legend and schedules frames exactly when the minimap defines the method it subscribes with, and throws otherwise |
| ChartFrame.InitAsWritten | src/chart/chart.js:144 | as written, init calls `subscribe`, which the minimap does not define, so it throws and neither frames nor the legend handler ever run; `toggleDataset` is undefined as well |
| ChartFrame.InitCorrected | src/chart/chart.js:143-154 | subscribing with the minimap's own `sibscribe`, init wires the viewport events, the legend and the frames |
| ChartFrame.Toggle | src/chart/chart.js:157-166 | the corrected toggle retargets every dataset with the key to 1 or 0, changes nothing else, and resets the border throttle |
| ChartFrame.ToggleActive | src/chart/chart.js:157-166 | after a toggle the active datasets are those with the key when switched on, plus the other active ones |
| ChartFrame.ToggleRefreshesBorders | src/chart/chart.js:157-166 | after the corrected toggle the next frame, from 250 ms on, scans the new active set |
| ChartFrame.FirstMatch | src/chart/chart.js:158-159 | the first dataset with the key, or none when none has it |
| ChartFrame.ToggleAsWritten | src/chart/chart.js:157-166 | as written, a matching key retargets only the first dataset with it and then throws before the throttle reset; with no match only the reset happens |
| ChartFrame.StaleBordersAfterToggle | src/chart/chart.js:161-165 | after the toggle as written, a frame within the throttle interval keeps the borders scanned before the toggle |
| ChartFrame.HiddenMaximumSurvives | src/chart/chart.js:161-165 | hiding the only dataset reaching 10 keeps the maximum 10.1, where a scan of the shown datasets gives 1.01 |
| ChartFrame.HidingA | src/chart/chart.js:157-163 | hiding "a" as written leaves "b" the only active dataset and the throttle untouched |
| ChartFrame.ScanOfB | src/chart/chart.js:445-465 | the scan of the dataset "b" alone gives the maximum 1.01 |
| LegacyChart.UpdateViewport | Chart.js:251-263 | the viewport starts at the slider's fraction and ends at most at 1, keeping the slider's width unless clipped |
| LegacyChart.ClampOffset | Chart.js:291 | the drag offset stays in `[-(canvasWidth - containerWidth), 0]`, following the finger when it can |
| LegacyChart.ClampIdempotent | Chart.js:291 | a clamped offset stays put under a zero move |
| LegacyChart.TouchMove | Chart.js:285-301 | a drag yields the clamped offset and a viewport starting at its fraction of the canvas, width kept unless clipped at 1 |
| LegacyChart.ZoomStep | Chart.js:102-106 | the zoom ratio snaps within 0.00001, otherwise moves `p` of the gap, never overshooting for small elasticities |
| LegacyChart.GridValues | Chart.js:131-140 | a finite zoom gives `sections` whole multiples of one step, the top one reaching `newMaxY` |
| LegacyChart.YLabelMapSpec | Chart.js:146-162 | no value label is ever removed; unwanted labels fade out, wanted ones head back to full, new ones start invisible |
| LegacyChart.YLabelMap | Chart.js:146-162 | no tracked value is dropped, every wanted value is tracked, and nothing else is |
| LegacyChart.LegacyLabelGains | Chart.js:142-144 | the label gains stay within `[0, 0.9]`, so labels move towards their targets without overshooting |
| LegacyChart.DateStep | Chart.js:120 | the date step times the number of gaps is the canvas width |
| LegacyChart.LastLabelAtEdge | Chart.js:201-202 | the last label ends on the canvas' right edge |
| LegacyChart.Greedy | Chart.js:193-220 | every label drawn from index `i` on is an index at least `i`, drawn at its own position |
| LegacyChart.PlaceDateLabels | Chart.js:191-221 | the first label is drawn at 0, the last label is always drawn, and every label sits at its own position |
| LegacyChart.GreedyDrawsEnds | Chart.js:207 | the first and the last label are always drawn |
| LegacyChart.GreedyAscending | Chart.js:193 | labels are drawn left to right, each at most once |
| LegacyChart.GreedyFitsAt | Chart.js:207-208 | every interior label drawn starts more than the margin after the previous label drawn and leaves room before the edge |
| LegacyChart.GreedySkipsAt | Chart.js:207-208 | every interior label skipped did not fit after the previous label drawn |
| LegacyChart.LastLabelOverlaps | Chart.js:191-221 | four 66-pixel labels on a 225-pixel canvas draw an interior label that the last label covers |
| LegacyChart.LastLabelCovers | Chart.js:199-219 | for any widths, the last label is drawn right-aligned whatever precedes it; an interior label before it keeps only the margin to the edge, and the two overlap exactly when that label ends past `canvasWidth - lastWidth` |
| LegacyChart.SpacedLabelsDoNotOverlap | Chart.js:191-221 | keeping the last label's room free, consecutive drawn labels are more than the margin apart |
| LegacyChart.SpacedDateLabels | Chart.js:191-221 | the placement keeping the last label's room also draws the first label at 0 and the last label, each at its own position |
| LegacyChart.SpacedPairApart | Chart.js:207-219 | one consecutive pair of the spaced placement is more than the margin apart |
| Slider.Move | src/chart-map/chart-map.js:181-213 | dragging keeps the width, clamps to 0 exactly when the left edge would leave the wrap, and keeps a slider that fits inside the wrap |
| Slider.MoveIsClamp | src/chart-map/chart-map.js:197-211 | the drag clamps `startX + delta` into `[0, wrapWidth - sliderWidth]` |
| Slider.RightHandle | src/chart-map/chart-map.js:233-256 | the right handle never moves the translate, keeps the minimum width, and stops at the wrap's right edge |
| Slider.RightHandleIsClamp | src/chart-map/chart-map.js:240-254 | the right handle clamps `originWidth + delta` between the minimum and the room to the right |
| Slider.LeftHandle | src/chart-map/chart-map.js:280-309 | the left handle keeps the minimum width unless pinned at 0, and a clamped drag ends at the old right edge |
| Slider.LeftHandleKeepsRightEdge | src/chart-map/chart-map.js:284-307 | the left handle never moves the slider's right edge |
| Slider.LeftHandleIsClamp | src/chart-map/chart-map.js:284-307 | the left handle clamps the new left edge into `[0, R - minWidth]` |
| Minimap.InFlatten | src/chart-map/chart-map.js:7-8 | a value is in the concatenation exactly when it is a value of some dataset |
| Minimap.MaxPoint | src/chart-map/chart-map.js:6-11 | `getMaxPoint` is the maximum over every value of every dataset |
| Minimap.MinPoint | src/chart-map/chart-map.js:13-18 | `getMinPoint` is the minimum over every value of every dataset |
| Minimap.ExtremaOfAll | src/chart-map/chart-map.js:6-18 | the extremes of the concatenation are the extremes over all datasets |
| Minimap.Scale | src/chart-map/chart-map.js:55 | the scale is finite exactly for distinct finite extremes and then times the range gives the height; no values give 0 |
| Minimap.RatioX | src/chart-map/chart-map.js:56 | the horizontal scale is finite exactly for a timeline with distinct ends and then times the span gives the width |
| Minimap.Init | src/chart-map/chart-map.js:52-66 | the scale fits every value, and every dataset is fully shown at it |
| Minimap.Others | src/chart-map/chart-map.js:86-94 | the staying datasets are exactly those with another name |
| Minimap.ExtremaOfOthers | src/chart-map/chart-map.js:96-97 | the extremes of the staying datasets are the extremes over all datasets but the named one |
| Minimap.OthersAreCounted | src/chart-map/chart-map.js:88-94 | every dataset with another name stays, and every staying one has another name |
| Minimap.MaxOfOthers | src/chart-map/chart-map.js:96 | the staying maximum is the maximum over every dataset but the named one |
| Minimap.MinOfOthers | src/chart-map/chart-map.js:97 | the staying minimum is the minimum over every dataset but the named one |
| Minimap.HideNamed | src/chart-map/chart-map.js:88-103 | the named dataset heads for opacity 0; every other heads for the new scale |
| Minimap.TurnOff | src/chart-map/chart-map.js:85-104 | hiding fits the scale to all but the named dataset, which fades out keeping its scale target |
| Minimap.TurnOn | src/chart-map/chart-map.js:106-120 | showing fits the scale to every dataset again; the named one fades in and jumps to the new scale |
| Minimap.SameValuesSameExtremes | src/chart-map/chart-map.js:6-18 | datasets with the same values have the same extremes |
| Minimap.TurnOnOverwritesTargets | src/chart-map/chart-map.js:106-120 | showing does not depend on the scale targets it overwrites |
| Minimap.TurnOffThenOn | src/chart-map/chart-map.js:85-120 | hiding then showing a dataset is showing it straight away |
| Minimap.StepRatio | src/chart-map/chart-map.js:138-140 | a scale step is finite exactly when both ends are, never overshoots, and snaps within epsilon |
| Minimap.Update | src/chart-map/chart-map.js:122-145 | a minimap frame steps each opacity and scale towards its target without overshooting and changes nothing else |
| Minimap.UpdateAtRest | src/chart-map/chart-map.js:129-141 | a minimap at rest only records the frame time |
| Minimap.PointCorners | src/chart-map/chart-map.js:155-157 | with the fitted scales the extremes are drawn on the bottom and top edges and the ends of the timeline on the left and right edges |
| Minimap.Point | src/chart-map/chart-map.js:155-157 | each coordinate is the exact one floored to a whole pixel, the first timestamp at x = 0 and the minimum on the bottom edge |
| Minimap.Corners | src/chart-map/chart-map.js:156-157 | the drawing arithmetic puts the extremes and the ends of the timeline on the canvas edges |
| Minimap.MoveSlider | src/chart-map/chart-map.js:191-213 | the drag clamps the slider into the wrap |
| Minimap.LeftHand | src/chart-map/chart-map.js:280-309 | the left handle keeps the right edge, keeps 40 pixels unless pinned, and notifies only when clamped to the minimum width |
| Minimap.RightHand | src/chart-map/chart-map.js:233-256 | the right handle keeps the translate and keeps the width within `[40, room]` |
| LegacyMap.SetDisplayed | ChartMap.js:17-22 | a chart is displayed exactly when its id is in the published set, and nothing else changes |
| LegacyMap.LastSetWins | ChartMap.js:17-22 | only the last published set matters |
| LegacyMap.ZoomRatio | ChartMap.js:239 | the zoom ratio is not finite exactly for a highest point of 0, and then times it gives the drawable height |
| LegacyMap.HighestPoint | ChartMap.js:237 | the maximum of the per-chart maxima is the maximum over every point |
| LegacyMap.ZoomIgnoresDisplay | ChartMap.js:237-241 | the zoom ratio does not depend on which charts are displayed |
| LegacyMap.PointsBelowOffset | ChartMap.js:248-266 | every point is drawn at or below the top offset, the highest exactly on it |
| LegacyMap.DrawPoint | ChartMap.js:257-261 | the first point is drawn at x = 0 and every point inside the width; a point of 0 is on the bottom, and with a positive zoom exactly the positive points are above it |
| LegacyMap.Column | ChartMap.js:250-259 | the x of point `i` of `n` starts at 0 and stays inside the width |
| LegacyMap.AtMostHighest | ChartMap.js:237 | every point of every chart is at most the highest point |
| LegacyMap.Below | ChartMap.js:258 | a point at most the maximum is drawn at or below the offset, the maximum on it |
| LegacyMap.ScrollToViewport | ChartMap.js:268-270 | a well-formed viewport puts the slider inside the canvas |
| LegacyMap.ScrollUndoesUpdate | ChartMap.js:268-270 | scrolling to a viewport made from a slider position brings the slider back there |
| LegacyMap.Move | ChartMap.js:62-90 | only an unclamped drag publishes, and it publishes the slider's new span |
| LegacyMap.RightHand | ChartMap.js:123-152 | the right handle keeps the translate and the minimum width and publishes only unclamped |
| LegacyMap.LeftHand | ChartMap.js:185-217 | the left handle keeps the right edge and publishes only unclamped |
| DemoMap.Projections | chart-map/chart-map.js:53 | one coordinate list per series, holding the chosen coordinate of each point |
| DemoMap.GetMax | chart-map/chart-map.js:49-55 | `getMax` is the maximum of the coordinate over every point of every series |
| DemoMap.GetMin | chart-map/chart-map.js:57-63 | `getMin` is the minimum of the coordinate over every point of every series |
| DemoMap.WithinExtremes | chart-map/chart-map.js:65-68 | every coordinate lies between the finite `getMin` and `getMax` |
| DemoMap.HighestOnTop | chart-map/chart-map.js:70 | with the scale of a highest value, that value is drawn on the top edge |
| DemoMap.RatioYFitsHeight | chart-map/chart-map.js:67-70 | the vertical scale exists exactly for a finite, non-zero `getMax(y)`, and the scale it takes draws that value on the top edge |
| DemoMap.RightmostOnEdge | chart-map/chart-map.js:71 | with the scale of two extremes, the larger is drawn on the right edge |
| DemoMap.RatioXFitsWidth | chart-map/chart-map.js:65-71 | the horizontal scale exists exactly for finite, distinct `getMax(x)` and `getMin(x)`, and then draws the larger on the right edge |
| DemoMap.Draw | chart-map/chart-map.js:85-86 | a point is drawn its distance from the leftmost, scaled; the leftmost at x = 0; a y of 0 on the bottom, and with a positive scale exactly the positive y above it |
| DemoMap.DrawnOnCanvas | chart-map/chart-map.js:70-93 | every point is drawn across the full width, no point above the top, the highest on it |
| DemoMap.OnCanvas | chart-map/chart-map.js:85-86 | one point between the extremes is drawn on the canvas |
| DemoMap.Across | chart-map/chart-map.js:86 | `x * r - lo * r` runs from 0 to the width |
| DemoMap.Down | chart-map/chart-map.js:85 | `h - y * r` lies in the canvas for a non-negative value at most the maximum |
| DemoMap.TranslateDigits | chart-map/chart-map.js:293 | the filter keeps only digits and dots and never lengthens the text |
| DemoMap.TranslateDigitsMembers | chart-map/chart-map.js:293 | a character survives exactly when it is in the text and is a digit or dot |
| DemoMap.TranslateDigitsConcat | chart-map/chart-map.js:293 | filtering a concatenation filters each part |
| DemoMap.TranslateDigitsKeepsKept | chart-map/chart-map.js:293 | a text of digits and dots is left unchanged |
| DemoMap.TranslateDigitsIdempotent | chart-map/chart-map.js:293 | filtering twice is filtering once |
| DemoMap.TranslateOfTransform | chart-map/chart-map.js:131-145 | the filter sees only the offset's text inside the transform |
| DemoMap.PrefixFilteredOut | chart-map/chart-map.js:144 | "translateX(" filters to nothing |
| DemoMap.SuffixFilteredOut | chart-map/chart-map.js:144 | "px)" filters to nothing |
| DemoMap.NothingKept | chart-map/chart-map.js:293 | a text without digits or dots filters to nothing |
| DemoMap.WholeOffsetRoundTrip | chart-map/chart-map.js:292-294 | `getTranslateValue` reads a whole pixel offset back |
| DemoMap.NegativeOffsetLosesSign | chart-map/chart-map.js:292-294 | a negative offset reads back without its sign |
| DemoMap.Reported | chart-map/chart-map.js:292-294 | the offset reported is never negative and is the translate up to sign |
| DemoMap.Move | chart-map/chart-map.js:120-146 | the drag keeps the width, reports in every branch, and inside the wrap reports the slider's translate |
| DemoMap.RightHand | chart-map/chart-map.js:163-216 | the right handle keeps the translate and the 40-pixel minimum and reports in every branch |
| DemoMap.LeftHand | chart-map/chart-map.js:218-278 | the left handle keeps the right edge and the 40-pixel minimum unless pinned, and reports in every branch |

## Left out

- DOM and canvas work (element creation, styles, `clearRect`, `lineTo`, colours, `hexToRGB`), the legend, the night-mode button, the outside-click and week-day utilities, and the bootstrap files: these draw or wire things and compute nothing the model states.
- `JSON.parse`: its outcome is an input (`None` for text it rejects).
- `performance.now()`, `requestAnimationFrame` timestamps and `getBoundingClientRect` sizes: these are parameters.
- The `Date` decomposition of a timestamp into month and day: the date formatters take the month and day, and the date labels take the text function as a parameter.
- `toPrecision` and `toFixed` formatting of drawn values: `+x.toFixed(2) === 0` is modelled as `|x| < 0.005`, and the rest only affects pixels.
- Floating point: numbers are reals. `Number.EPSILON` is the exact value `2^-52`.
- src/chart/chart.js:132 reads `timeline[this.timeline - 1]`, which is `undefined`, so `lastRatioX` starts as NaN. It is overwritten before it is used, so the model has no `lastRatioX`.
- As written, init throws at src/chart/chart.js:144, so no frame and no toggle ever runs (ChartFrame.InitAsWritten). The frame and toggle members describe the chart with that call corrected (ChartFrame.InitCorrected). The minimap's viewport events are not modelled as reaching the chart; the viewport is a parameter of each frame.
- `fireChangeViewportEvent` calls its callbacks without arguments. The model records only whether it is called (Minimap.LeftHand).
- ChartFrame.Frame: it requires a non-empty timeline. The source reads `timeline[0]` and would compute NaN windows on an empty one.
- ChartFrame.Frame: the corrected frame no longer promises a drawing where the scale is not finite. It returns None on a top at zero and on a maximum equal to a kept border. The frame as written runs on there with an infinite scale that turns NaN for good (ChartFrame.ZeroScaleLeavesReals, ChartFrame.ScaleStaysLost), and the corrected model does not draw that.
- LowerBorder.OutsideDomainNeverStops: it covers finite borders only. With datasets active over an empty window the borders are infinite, and ChartFrame.LowerBorderAsWritten takes the search to fail there too: no gridline is above an infinite minimum, so the candidate turns NaN and the recursion never stops.
- Helpers.LabelWidth: JavaScript's `text.length` counts UTF-16 code units, while the model counts the characters of the string. The two differ only for characters outside the Basic Multilingual Plane; date labels are ASCII.
- XLabels.WantedLabels: where the halving loop never ends, the model returns None instead of running for ever.
- `drawGrid`: it is not composed into ChartFrame.Frame. Its two halves are YLabels and XLabels, which take the frame's scale, lower border and frame time as inputs.
- `getZoomRatio`, `isInRange`, `getViewportX`, `prepareChartData`, `prepareMinimapData`, `getTranslateValue` and `updateViewport` of the first version are imported from code that is not part of this model. The zoom target is a parameter, and a publication of ChartMap.js is the slider's pixel span.
- settings.js has no `labelsOffset`, `sections`, `animation.elasticity` or `minimap` key. These values are parameters of LegacyChart and LegacyMap.
- `getCoords`: it is taken with `pageXOffset` 0, so a box is its left edge and width. `clientWidth` is taken as the box width.
- Touch-feedback animation timers and `touchContainer` positioning: these only move a decoration.
- DemoMap.Reported: number-to-text conversion is modelled for whole offsets only (NatText). Fractional and exponent forms are left out. The contract states the sign loss that `getTranslateValue` shows for any offset (NegativeOffsetLosesSign, WholeOffsetRoundTrip).
- DemoMap.RatioX and DemoMap.RatioY: with no points at all, JS divides by an infinity and gets 0, while the model gives `None`. The demo's data is a fixed non-empty set.
- The demo's vertical scale `height / maxY` ignores `minY`. It is modelled as written; DemoMap.DrawnOnCanvas therefore speaks only of non-negative values for the bottom edge.
- Rendering order and the draw calls' pixel rounding in the first version's `drawChart`: only the coordinates are modelled.

## Findings

| source | as written | input that shows it | evidently intended | confidence | as-written member | corrected member |
|---|---|---|---|---|---|---|
| src/chart/chart.js:26-38 | `getLowerBorder(min, max, 0)` recurses for ever when no gridline lies above minY: `labels[-1] - dimension` is NaN, and NaN never equals the candidate | every visible value 0: min = max = 0 after the margins | a lower border for every range, keeping the previous one where the search has none | not executed | LowerBorder.ZeroRangeHasNoGridline | LowerBorder.ScaleLowerBorder |
| src/chart/chart.js:157-166 | `toggleActiveDatasets` calls `this.map.toggleDataset`, which the minimap does not define. The handler throws after the first matching dataset, so the throttle reset at line 165 never runs. The handler is only reachable once the call at line 144 is corrected | hide dataset "a" of two ("a" at 10, "b" at 1) within 250 ms of the last scan: the next frame keeps the maximum 10.1 | retarget the dataset and reset the throttle, so the next frame rescans the shown datasets | not executed | ChartFrame.ToggleAsWritten | ChartFrame.Toggle |
| Chart.js:191-221 | interior date labels are compared only with the previous label and the right edge, but the last label is drawn unconditionally on top of them | four dates, labels 66 px wide, canvas 225 px: label 2 spans `[117, 183]`, the last `[159, 225]` | no two labels drawn closer than the margin | not executed | LegacyChart.LastLabelOverlaps | LegacyChart.SpacedLabelsDoNotOverlap |
| src/chart/chart.js:143-154 | init calls `this.map.subscribe`, while the minimap defines only `sibscribe` (src/chart-map/chart-map.js:77). Init throws a TypeError before the legend subscription and the first animation frame | any chart: the first call of init | subscribe to the minimap's viewport events, then wire the legend and start the frames | not executed | ChartFrame.InitAsWritten | ChartFrame.InitCorrected |
