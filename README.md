# Road-safety enforcement dashboard: data logic in Dafny

The dashboard has five D3 chart scripts, each showing Australian mobile-phone enforcement data:

- `js/q1.js`: police and camera fines over time, as a line/area chart with a year slider.
- `js/q2.js`: fines per jurisdiction per year, as a multi-line chart.
- `js/q3.js`: fines per 10,000 licences per jurisdiction, as horizontal bars with filters.
- `js/q4.js`: camera versus police fines per jurisdiction, as stacked bars with absolute and 100% modes and insight tiles.
- `js/q5.js`: fines per state, as a heat map with a play/pause year animation.

This project models what those scripts compute and the page state they keep. It leaves out what they draw.

## What is modelled

- **Values.** Numbers the scripts coerce are `JsNum` (NaN or a real), and every comparison with NaN is false. Cells are `Option<string>`, where `None` stands for `undefined`. The modelled coercions are:
  - unary `+`, `parseInt`, `||`, `??`;
  - `trim` and `toUpperCase`;
  - `new Date(y, m, d)` and `Date` comparison.

  These live in `JsValues` and `Csv`. JavaScript `Set`s keep insertion order, which shows in q3's subtitle, so a set is a duplicate-free sequence (`OrderedSets`). `Array.prototype.sort` is stable, so sorting by a numeric key is a stable insertion sort (`StableSort`).
- **Path fallback.** Each loader tries its candidate paths in order and keeps the first acceptable result: `Csv.FirstAccepted`. In q1 that is the `LineChart.LoadData` loop, in q2 `JurisdictionLines.LoadData`, and in q3 the `JurisdictionBars.Dashboard.LoadData` loop.
- **q1 (`LineChart`):**
  - row parsing, with the year filter and the sort;
  - the `compiled` points, their `forEach`/`push` loop, and the per-method series;
  - the active-method set under legend clicks and checkboxes;
  - the peak `reduce`;
  - the 31 December cut-off of `filterByYear`;
  - the visibility of the Camera label.
- **q2 (`JurisdictionLines`):**
  - the wide-to-long reshape, with its nested loops;
  - the sorted jurisdiction list;
  - the y-bound clamp;
  - the legend and checkbox toggles;
  - the nearest-point `reduce`.
- **q3 (`JurisdictionBars`):**
  - the filter on jurisdiction and year range;
  - the per-jurisdiction aggregation, sorted by average;
  - the subtitle ladder and the year-range check;
  - all page state, as the `Dashboard` class: `focusJurisdiction`, `resetSelection`, the checkboxes, select/deselect all, the `isAnimating` guard, and `applyYearFilter`.
- **q4 (`StackedBars`):**
  - the row transform and the sort by total;
  - `applyFilters`;
  - the absolute and proportional stacks;
  - the y-domain top;
  - the text and anchor height of the total labels;
  - the figures behind the four insight tiles (`ComputeInsights`, a loop);
  - the page state, as the `StackedChart` class.
- **q5 (`HeatMap`):**
  - the `dataMap[year][jurisdiction]` table, filled by a loop;
  - `getValue` and the GeoJSON-name lookup;
  - the shown year under play ticks, slider input, play/pause and reset (the `HeatMapPage` class).

Some properties are proved about the source as written:

- In q1, the legend can never empty the active set, but unchecking the last checkbox can.
- In q1, the peak keeps the earliest of equal maxima, while q4's top jurisdiction keeps the latest. q1's reduce keeps its accumulator unless the new value is strictly greater; q4's keeps `a` only if it is strictly greater.
- In q3, the "single year with one row" branch of the average gives the same number as the mean.
- In q4, in proportional mode, a jurisdiction with no fines stacks to two zero segments, but its total label is still anchored at 100 (`LabelOnTopSegment` excludes that case).
- In q4, with both layers visible, the label `updateTotalLabels` writes equals the first label, except that an absolute total of 0 loses its text (`InitialLabelKept`).
- In q5, 17 play ticks return to the starting year, and no fewer do.

## Model

| member | source | states |
|---|---|---|
| JsValues.TrimStart | js/q5.js:54 | the result is a suffix of the input with no leading white space |
| JsValues.TrimStartDropsWhite | js/q5.js:54 | every character `trimStart` drops is white space |
| JsValues.TrimEnd | js/q5.js:54 | the result is a prefix of the input with no trailing white space |
| JsValues.TrimEndDropsWhite | js/q5.js:54 | every character `trimEnd` drops is white space |
| JsValues.ToUpper | js/q2.js:34 | same length, each character upper-cased (ASCII letters) |
| JsValues.LeadingDigits | js/q3.js:644-645 | the longest all-digit prefix: a prefix, all digits, and the next character is not a digit |
| JsValues.NatToStringValue | js/q3.js:547-549 | the decimal text of a natural number reads back as that number |
| JsValues.TrimKeepsCharacters | js/q5.js:54 | every character `trim` keeps comes from the input |
| JsValues.UnsignedDecimalOfDigitFree | js/q4.js:56-57 | text without a digit is no decimal literal and reads as NaN |
| JsValues.ToNumberOfDigitFree | js/q4.js:56-57 | unary `+` of text without a digit is NaN, and 0 when the text is blank |
| JsValues.ToNumberOfIntToString | js/q3.js:109 | unary `+` of an integer's decimal text is that integer |
| JsValues.ParseIntOfIntToString | js/q3.js:644-645 | `parseInt` of an integer's decimal text is that integer |
| JsValues.ParseIntPrefix | js/q3.js:644-645 | `parseInt` stops at the first non-digit after an integer's text |
| JsValues.ParseIntIntegral | js/q3.js:644-645 | `parseInt` always yields NaN or a whole number |
| JsValues.IntegralTextRoundTrip | js/q3.js:547-549 | a whole year printed in a template string and read back by `parseInt` is unchanged |
| OrderedSets.Add | js/q1.js:413 | `Set.add`: membership gains exactly x, order kept, duplicates never introduced |
| OrderedSets.Delete | js/q1.js:407 | `Set.delete`: membership loses exactly x, duplicates never introduced |
| OrderedSets.FromSeq | js/q2.js:82 | `new Set(items)`: duplicate-free, same members as the items |
| OrderedSets.DeleteMemberSize | js/q1.js:406-407 | deleting a member shrinks the set by one |
| StableSort.SortByCorrect | js/q1.js:80 | the sort's result is ordered by the key and a permutation of the input |
| StableSort.SortByStable | js/q3.js:220 | the sort keeps the input order of elements with equal keys, so bars with equal averages keep their group order |
| Csv.NullableNumberOfText | js/q1.js:63-64 | a missing or empty cell is null, and a cell holding a whole number's text is that number |
| Csv.FirstAccepted | js/q1.js:21-36 | the first path whose result is accepted; every earlier path was refused; none only when all paths are refused |
| LineChart.LoadData | js/q1.js:11-36 | the loop returns the first array result, tries paths in order, and throws only after all fail or give non-arrays |
| LineChart.ValidRecords | js/q1.js:58-73 | filtering never adds rows |
| LineChart.ValidRecordsMembers | js/q1.js:58-73 | a record survives exactly when some row parses to it with a valid date |
| LineChart.ParseRowsSpec | js/q1.js:73-80 | the error is raised exactly when no row has a valid year; otherwise the rows are sorted by year and a permutation of the valid ones |
| LineChart.YearTextParses | js/q1.js:59-67 | a row whose YEAR cell is a year's text parses to 1 January of that year |
| LineChart.Compile | js/q1.js:100-105 | the `forEach`/`push` loop yields exactly the flattened points |
| LineChart.Series | js/q1.js:108 | a method's series holds only that method's points, all from the input |
| LineChart.SeriesOfRecord | js/q1.js:102-104 | one record adds to a method's series exactly its non-null reading of that method |
| LineChart.SeriesOfFlatten | js/q1.js:101-108 | a method's series is its readings in row order: a point exactly where the reading is non-null |
| LineChart.SeriesAppend | js/q1.js:108 | grouping distributes over concatenation, so row order is kept |
| LineChart.Methods | js/q1.js:313-314 | the initial active set is duplicate-free and names exactly the methods with points |
| LineChart.PeakIsFirstMaximum | js/q1.js:677 | with numeric values the peak is a maximum, and every earlier point is strictly smaller (the earliest maximum wins) |
| LineChart.NaNFirstIsPeak | js/q1.js:677 | a NaN first point stays the peak, since no comparison with it succeeds |
| LineChart.UpToKeepsYears | js/q1.js:581-608 | with 1 January dates, the 31 December cut-off keeps exactly the points of that year or earlier |
| LineChart.PeakFromIn | js/q1.js:677 | the peak, when there is one, is the seed or a point of the series |
| LineChart.FilterByYearVisibility | js/q1.js:581-650 | after a year change a path is redrawn only for an active method and then holds exactly its points up to that year; a point is visible exactly when its method is active and its year is not later; a peak marker is visible exactly when its method is active and its peak point is on the redrawn path |
| LineChart.CameraLabelRule | js/q1.js:340-351 | for a whole-year slider the Camera label shows exactly when Camera is active and the year is 2020 or later; a missing slider or a NaN reading never shows it |
| LineChart.LegendToggleKeepsOne | js/q1.js:403-414 | a legend click never empties a non-empty active set and keeps it duplicate-free |
| LineChart.CheckboxCanEmpty | js/q1.js:658-660 | unchecking the only active method's box leaves no method active |
| LineChart.MethodSelection.LegendClick | js/q1.js:403-417 | the active set becomes the legend toggle of the old one and stays non-empty; the checkbox mirrors membership |
| LineChart.MethodSelection.CheckboxChange | js/q1.js:657-663 | the box adds or deletes the method, so membership equals the box's state |
| JurisdictionLines.JurisdictionColumns | js/q2.js:32-34 | a header is a jurisdiction column exactly when its upper-case form is not YEAR |
| JurisdictionLines.LongLength | js/q2.js:36-45 | the long output holds exactly one entry per row and jurisdiction column |
| JurisdictionLines.LongIndex | js/q2.js:36-45 | the long output has rows × columns entries; entry i·n+k is row i's date, column k and its nullable value |
| JurisdictionLines.LongAppend | js/q2.js:37-45 | reshaping distributes over concatenation of rows |
| JurisdictionLines.LongJurisdictions | js/q2.js:36-45 | the long entries name exactly the jurisdiction columns (when there are rows) |
| JurisdictionLines.ToLong | js/q2.js:36-45 | the nested `forEach`/`push` loops build exactly the row-major long output |
| JurisdictionLines.LoadData | js/q2.js:11-55 | the result is the first non-empty array, reshaped; the error is thrown exactly when no path gives one |
| JurisdictionLines.StrLessTransitive | js/q2.js:82 | string `<` is transitive |
| JurisdictionLines.StrLessTotal | js/q2.js:82 | string `<` orders any two different strings |
| JurisdictionLines.SortStringsCorrect | js/q2.js:82 | sorting distinct strings gives a strictly ascending permutation |
| JurisdictionLines.JurisdictionsSpec | js/q2.js:82-86 | the list is strictly ascending, duplicate-free and names exactly the data's jurisdictions; the error is thrown exactly for empty data |
| JurisdictionLines.LoadedJurisdictions | js/q2.js:32-34 | after loading, the list holds exactly the header names other than YEAR |
| JurisdictionLines.NumericValues | js/q2.js:122 | exactly the non-null, non-NaN values |
| JurisdictionLines.YBounds | js/q2.js:122-129 | the lower bound is at least -20000 and otherwise below every value; the upper bound is at least every value; with no values the bounds are -0.18 and 1.18 |
| JurisdictionLines.Flip | js/q2.js:231-232 | a legend click flips membership of exactly that jurisdiction and keeps the set duplicate-free |
| JurisdictionLines.Selection.LegendClick | js/q2.js:229-237 | the set is flipped at j and the checkbox then equals membership |
| JurisdictionLines.Selection.CheckboxChange | js/q2.js:206-207 | the box adds or deletes j, so membership equals the box's state |
| JurisdictionLines.NearestIsFirstClosest | js/q2.js:313-315 | the nearest point minimises the distance to x0, and every earlier point is strictly farther (earlier wins ties) |
| JurisdictionBars.ParseRows | js/q3.js:108-114 | one parsed record per CSV row, in order |
| JurisdictionBars.FilterMembers | js/q3.js:151-157 | a row is kept exactly when its jurisdiction is active and its year lies in [start, end] |
| JurisdictionBars.FilterKeepsOrder | js/q3.js:152 | the filter distributes over concatenation, so original order is kept |
| JurisdictionBars.FilterEmptyRange | js/q3.js:151-157 | a range with end before start keeps nothing |
| JurisdictionBars.NumCount | js/q3.js:209 | `d3.mean` counts at most all values, and none exactly when all are NaN |
| JurisdictionBars.MeanBetween | js/q3.js:209 | the mean of values in [lo, hi] lies in [lo, hi] |
| JurisdictionBars.SingleYearIsMean | js/q3.js:207-213 | the single-year, single-row branch of the average gives the same value as the mean |
| JurisdictionBars.AverageBetween | js/q3.js:207-213 | the bar's average is 0 when no rate is numeric and otherwise lies between the bounds of the rates |
| JurisdictionBars.Group | js/q3.js:205 | a group holds exactly the rows of its jurisdiction |
| JurisdictionBars.Keys | js/q3.js:205 | the groups' keys are duplicate-free and name exactly the jurisdictions present |
| JurisdictionBars.Summaries | js/q3.js:203-219 | one summary per distinct jurisdiction, in first-appearance order |
| JurisdictionBars.AggregateSorted | js/q3.js:220 | the bars are sorted by descending average, as a permutation of the summaries, one per jurisdiction |
| JurisdictionBars.AggregateRecords | js/q3.js:203-219 | every bar's total is the sum of its rows' fines, and its data-point count is their number |
| JurisdictionBars.AggregateCovers | js/q3.js:203-219 | every filtered row's jurisdiction has a bar |
| JurisdictionBars.AggregateDistinct | js/q3.js:203-219 | no two bars share a jurisdiction |
| JurisdictionBars.HighestIsMaximum | js/q3.js:287-288 | the annotation exists exactly when there are at least two bars, and then names a bar with the greatest average |
| JurisdictionBars.JoinContains | js/q3.js:563 | every joined name occurs in the joined text |
| JurisdictionBars.SubtitleNamesFew | js/q3.js:560-563 | with 1 to 3 active jurisdictions, every one of them is named in the subtitle |
| JurisdictionBars.SubtitleCountsMany | js/q3.js:564-565 | with more than 3 but not all active, the subtitle starts with their number |
| JurisdictionBars.YearTextStartsWithStart | js/q3.js:547-549 | the year part starts with the start year |
| JurisdictionBars.ReadYearRange | js/q3.js:643-653 | the alert is raised exactly when end < start; otherwise both parsed bounds are taken, and they are whole numbers or NaN |
| JurisdictionBars.FilterNothingActive | js/q3.js:151-157 | with no active jurisdiction nothing is kept |
| JurisdictionBars.Dashboard.constructor | js/q3.js:51-56 | all eight codes active, 2010-2024, not animating, first render |
| JurisdictionBars.Dashboard.UpdateChart | js/q3.js:534-539 | the filtered rows and bars are recomputed from the state; a non-empty chart animates only on the first render |
| JurisdictionBars.Dashboard.Load | js/q3.js:108-121 | data is the parsed rows; selection and range are kept; rows, bars and flags are redrawn as `updateChart` leaves them |
| JurisdictionBars.Dashboard.LoadData | js/q3.js:86-148 | data is parsed from the first non-empty CSV, with selection and range kept and the chart redrawn (rows, bars, flags); if every path fails no field changes |
| JurisdictionBars.Dashboard.LastBarTransitionEnd | js/q3.js:351-354 | the animation and first-render flags are cleared; nothing else changes |
| JurisdictionBars.Dashboard.FocusJurisdiction | js/q3.js:486-505 | only j is active; data and range are kept; rows, bars and flags are redrawn as `updateChart` leaves them |
| JurisdictionBars.Dashboard.BarClick | js/q3.js:422-427 | while animating no field changes; otherwise only j is active and the chart is redrawn |
| JurisdictionBars.Dashboard.ResetSelection | js/q3.js:508-522 | while animating no field changes; otherwise all eight codes are active and the chart is redrawn |
| JurisdictionBars.Dashboard.CheckboxChange | js/q3.js:586-597 | the box adds or deletes j, so membership equals the box's state; data and range are kept and the chart is redrawn |
| JurisdictionBars.Dashboard.SelectAll | js/q3.js:601-608 | all eight codes are active; data and range are kept and the chart is redrawn |
| JurisdictionBars.Dashboard.DeselectAll | js/q3.js:611-618 | nothing active, nothing filtered, no bars; data, range and both flags are kept |
| JurisdictionBars.Dashboard.SetYearRange | js/q3.js:650-652 | the range is set; data and selection are kept and the chart is redrawn |
| JurisdictionBars.Dashboard.ApplyYearFilter | js/q3.js:643-653 | a reversed range alerts and no field changes; otherwise both bounds are set, data and selection are kept and the chart is redrawn |
| StackedBars.Transform | js/q4.js:54-59 | camera and police are the `+cell \|\| 0` counts of their columns, total is their sum, and the jurisdiction is the row's cell |
| StackedBars.CountDefaults | js/q4.js:56-57 | a missing column and an empty cell count as 0 |
| StackedBars.CountOfDigitFree | js/q4.js:56-57 | any text without a digit counts as 0 |
| StackedBars.CountOfText | js/q4.js:56-57 | a cell holding a whole number's text is read as that number |
| StackedBars.SortedByTotalSpec | js/q4.js:62 | `allData` is sorted by descending total, is a permutation of the rows, and keeps total = camera + police |
| StackedBars.KeepSelected | js/q4.js:160 | a row is kept exactly when its jurisdiction is one of the checked values |
| StackedBars.ApplyFiltersSpec | js/q4.js:150-161 | an empty selection gives no rows; otherwise exactly the selected rows, still in descending order of total |
| StackedBars.FilteredStaysSorted | js/q4.js:157-161 | the rows `applyFilters` keeps stay in descending order of total |
| StackedBars.KeepSelectedAppend | js/q4.js:160 | the filter distributes over concatenation, so the kept rows are in `allData`'s order, ties included |
| StackedBars.StackTops | js/q4.js:313-334 | proportional stacks of a jurisdiction with fines reach exactly 100, and without fines are 0 and 0; absolute stacks reach the total; absolute counts are kept |
| StackedBars.YDomainTop | js/q4.js:221-231 | 110 in proportional mode; otherwise 1.1 times the greatest total, which bounds every total |
| StackedBars.LabelOnTopSegment | js/q4.js:586-625 | the label is anchored on the top of the highest visible segment |
| StackedBars.LabelShowsVisibleSum | js/q4.js:561-583 | in absolute mode the label is the sum of the visible layers and blank exactly when that is not positive; in proportional mode it is 100% with both layers and blank with none |
| StackedBars.InitialLabelKept | js/q4.js:408-428 | with both layers visible the updated label equals the first one exactly when the chart is proportional or the total is positive |
| StackedBars.SumTotalSplits | js/q4.js:701-706 | the overall total is the camera total plus the police total |
| StackedBars.TopIsLastMaximum | js/q4.js:696 | the top jurisdiction has the greatest total, and every later row is strictly smaller (the last maximum wins) |
| StackedBars.PoliceHeavyCount | js/q4.js:711-712 | at most all rows; all rows exactly when each is police-heavy; 0 exactly when none is |
| StackedBars.TrendSpec | js/q4.js:715-728 | each of the six summaries is chosen exactly when its condition holds and no earlier one does |
| StackedBars.InsightsTop | js/q4.js:692-698 | with rows, the top tile names a row whose total is the greatest and after which every total is smaller; with none, no top and the trend "No data selected." |
| StackedBars.ComputeInsights | js/q4.js:692-728 | the loop's running camera, police and overall sums give exactly the figures `InsightsOf` defines: last maximum, shares of the column sums, police-heavy count and trend |
| StackedBars.SharesSumTo100 | js/q4.js:707-708 | with any fines selected, the camera and police shares add up to 100 |
| StackedBars.StackedChart.RenderInsightTiles | js/q4.js:678-728 | the tiles hold the figures of the current selection and nothing else changes |
| StackedBars.StackedChart.CreateChart | js/q4.js:169-183 | with rows: the stack is rebuilt from them in the current mode, both layers visible, animation pending; without: no stack; the tiles always show the selection |
| StackedBars.StackedChart.SetData | js/q4.js:54-63 | `allData` is the transformed rows sorted by total, and `filteredData` is a copy |
| StackedBars.StackedChart.Load | js/q4.js:49-67 | `allData` is the transformed rows sorted by total and `filteredData` a copy; the stack and tiles are drawn from them, with the animation pending and both layers visible when there are rows; the mode is outside the frame |
| StackedBars.StackedChart.ApplyFilters | js/q4.js:150-166 | the filtered rows follow `applyFilters`; the stack and tiles are redrawn from them, with the animation pending and both layers visible when there are rows; `allData` and the mode are untouched |
| StackedBars.StackedChart.SelectAll | js/q4.js:137-141 | `applyFilters` with every box's value: the rows, stack, tiles and animation state as for `ApplyFilters` |
| StackedBars.StackedChart.DeselectAll | js/q4.js:143-147 | no rows, no stack, no top jurisdiction, and the trend reads "No data selected."; the data, the mode, the animation flag and the layer visibility are kept |
| StackedBars.StackedChart.SetStackMode | js/q4.js:95-101 | the mode is set and the stack and tiles redrawn in it, with the animation pending and both layers visible when there are rows; the data are untouched |
| StackedBars.StackedChart.LastBarTransitionEnd | js/q4.js:394-398 | the animation is complete; nothing else changes |
| StackedBars.StackedChart.LegendClick | js/q4.js:520-536 | ignored until the animation completes; otherwise flips exactly that layer's visibility; data, stack, mode, tiles and animation flag are kept |
| HeatMap.ToEntryTrimsState | js/q5.js:54 | the stored jurisdiction code has no surrounding white space |
| HeatMap.ToEntryOfIntegers | js/q5.js:53-55 | a row whose YEAR and FINES cells hold whole numbers' text is filed under those numbers |
| HeatMap.InsertLookup | js/q5.js:57-58 | one step sets its own entry and leaves every other entry unchanged |
| HeatMap.LastFines | js/q5.js:52-59 | the FINES of the last row with that key; none exactly when no row has it |
| HeatMap.FillLastRowWins | js/q5.js:52-59 | after the fill, an entry holds the FINES of the last row with its key, and other entries are unchanged |
| HeatMap.FillStopsAtMissingState | js/q5.js:54 | a row without JURISDICTION stops the fill: nothing from it onwards is filed |
| HeatMap.ValueAfterLoad | js/q5.js:77-83 | `getValue` after a full load is the last row's FINES for that year and code, else 0 |
| HeatMap.FeatureValue | js/q5.js:97-99 | a feature without a known state code gets the value 0 |
| HeatMap.FeatureValueSpec | js/q5.js:97-99 | an unknown GeoJSON name is valued 0; a known one shows the value stored under its code |
| HeatMap.GeoToCsvInjective | js/q5.js:29-38 | different state names map to different codes |
| HeatMap.TickStaysInRange | js/q5.js:231-237 | ticking keeps a whole year within 2008..2024 |
| HeatMap.TicksCycle | js/q5.js:231-237 | after k ticks from year n the year is 2008 + (n - 2008 + k) mod 17 |
| HeatMap.PlayReturnsAfterSeventeen | js/q5.js:231-237 | 17 ticks return to the starting year and no fewer do |
| HeatMap.HeatMapPage.constructor | js/q5.js:6-11 | empty table, year 2008, not playing |
| HeatMap.HeatMapPage.Load | js/q5.js:52-59 | the table is the fill of the rows' entries; completed exactly when every row has JURISDICTION |
| HeatMap.HeatMapPage.FillFrom | js/q5.js:52-59 | the loop leaves the table equal to the fill of the entries |
| HeatMap.HeatMapPage.UpdateMap | js/q5.js:88-89 | the year becomes the argument; nothing else changes |
| HeatMap.HeatMapPage.Tick | js/q5.js:231-237 | the year moves to the next year, within 2008..2024 if it was; still playing |
| HeatMap.HeatMapPage.StartPlay | js/q5.js:227-238 | playing; the year and table are kept |
| HeatMap.HeatMapPage.StopPlay | js/q5.js:240-244 | not playing; the year and table are kept |
| HeatMap.HeatMapPage.PlayClick | js/q5.js:246-248 | play state flips; the year is kept |
| HeatMap.HeatMapPage.SliderInput | js/q5.js:222-225 | playing stops and the year is the slider's value |
| HeatMap.HeatMapPage.Reset | js/q5.js:250-253 | not playing and the year is 2008 |

## Left out

- All drawing is left out: SVG and DOM construction, D3 selections, scales, axes, transitions, tooltips, legends as HTML, and CSS. The model keeps the numbers these are drawn from, such as the y-domain top, label heights and the heat map's value per feature.
- Fetching is not modelled. A load outcome is a parameter: rejected, an array of rows, or a non-array. A `d3.csv` table is given as its column names (`Object.keys(raw[0])`) and rows.
- In q3, an error thrown after a path loaded also moves on to the next path, because `.catch` sees it. The model moves on only for an empty or failed load.
- Timers and the event loop are not modelled: the `setTimeout` retries and delays, the resize debounce, and `setInterval` scheduling. A play-interval firing is the `HeatMap.HeatMapPage.Tick` step. The ends of animations are explicit `LastBarTransitionEnd` steps.
- Text formatting is not modelled: `d3.format('.2s')`, `toFixed`, `toLocaleString`, and colour interpolation. `StackedBars.TotalLabel` returns the number a label shows, not its text.
- Floating point is not modelled: numbers are exact reals. `100 * 1.1` is exactly 110 here, and percentages sum to exactly 100.
- `ToNumber` reads only decimal literals with optional sign, fraction and surrounding white space. Infinity, exponents and hex literals read as NaN.
- ParseInt: reads decimal digits only. Without a radix, JavaScript's `parseInt` reads a `0x`/`0X` prefix as hexadecimal (`parseInt("0x7E8")` is 2024), while the model reads such text as 0. The year inputs of `applyYearFilter` hold decimal years.
- String `<` compares Unicode code points rather than UTF-16 code units. `toUpperCase` upper-cases ASCII letters only.
- `Date` is the civil year, month and day. Time zones are not modelled.
- Object keys are not modelled as strings: `dataMap` is keyed by the year as a number, and prototype properties of plain objects are not modelled.
- The q4 document click and Escape handlers call `resetSelection`, which `js/q4.js` never defines. They throw and change nothing, so they are not modelled.
- q4's `filterByDetectionMethod` only logs, and is not modelled.
- LineChart.FilterByYearVisibility: `filterByYear` calls `updateAnnotationVisibility` (js/q1.js:653), which no file of the dashboard defines. The call throws after the transitions are scheduled, so `updateYearSliders` never reaches its `updateVisibility()` (js/q1.js:567). The opacities this lemma states last only until the next legend or checkbox event. That event's `updateVisibility` (js/q1.js:316-372) shows every point and peak marker of an active method, whatever the year.
- LineChart.CameraLabelRule: for the same reason a slider move never re-evaluates the Camera label. The rule holds only as set by the last legend or checkbox event; moving the slider from 2024 to 2015 with Camera active leaves the label shown.
- HeatMap.HeatMapPage.Load: a row without JURISDICTION makes `.trim()` throw (js/q5.js:54). The throw ends the whole `d3.csv` callback, so the map is never drawn and the slider, play and reset listeners (js/q5.js:222-253) are never registered. The model returns `false` from `Load` but does not disable the later transitions; they describe a page whose load completed.
- `js/main.js` is not part of this model.
- Also not modelled:
  - the narrative texts and icons;
  - the slider-gradient percentages;
  - the pixel positions of annotations;
  - the heat map's colour-scale maximum.
- StackedBars.LabelOnTopSegment: in proportional mode it covers only jurisdictions with fines. For a total of 0, `js/q4.js` anchors the label at 100 above an empty stack.
