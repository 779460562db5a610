# Strava dashboard data shaping, modelled in Dafny

This project models the data-shaping core of a Strava activity dashboard written in Python with pandas. The model covers:

- **Column selection and unit normalisation** (`findColumns`, `convert_units`).
  - Distance columns go from metres to kilometres.
  - Speed columns go from m/s to km/h.
  - Time columns go from seconds to `"D days HH:MM"` text.
  - `total_elevation_gain` is rounded.
- **The data side of `generate_folium_map`.**
  - Automatic centring of the map on the mean start and end coordinate.
  - Colour and legend label per sport type.
  - Skipping activities without a route.
  - The insertion-ordered legend dictionary and one HTML block per legend entry.
- **The computations of the dashboard script.**
  - The length of the current year and the linear goal curve towards 8000 km.
  - Names shortened to 40 characters.
  - Each activity's cumulative distance within its year.
  - The annual summaries with their distance-weighted average speed, converted to display units and sorted by descending year.
- **`get_all_polylines`**, which flattens every activity's decoded route into one table of points.

## Modules

| file | module | what it holds |
|---|---|---|
| wrappers.dfy | `Wrappers` | `Option` and `Result` for the error paths |
| stats.dfy | `Stats` | sums, extrema, means and weighted means of exact reals, with their bounds |
| numeric.dfy | `Numeric` | `round(x, digits)` (half to even) on exact reals |
| duration.dfy | `Duration` | the `"D days HH:MM"` text of a number of seconds and a parser that reads it back |
| units.dfy | `Units` | tables of named columns, `findColumns`, `convert_units` as methods with loops proved against a specification, and what happens to each column |
| aggregation.dfy | `Aggregation` | activities, the ascending sort, the annual cumulative distance, the annual summaries and the displayed summary table |
| dashboard.dfy | `Dashboard` | calendar, goal curve, name shortening |
| geo.dfy | `Geo` | points, the polyline decoder (a parameter), Python truthiness of a polyline cell |
| route_map.dfy | `RouteMap` | classification, legend dictionary, centring, the activity-frame class mutated by centring, the drawing and legend loops |
| polylines.dfy | `Polylines` | `get_all_polylines` with its nested loop |

How the model represents the data:

- **Tables.** A table is a sequence of named columns. A cell is an integer, a real, NaN, an infinity or a string.
- **Errors.** Where pandas raises, the model returns an error value:
  - a text cell in a converted column;
  - a missing `total_elevation_gain`;
  - a coordinate cell that `ast.literal_eval` rejects;
  - a coordinate with fewer than two components;
  - an empty table under automatic centring, whose NaN mean `folium.Map` refuses as a location.
- **Mutation.** `generate_folium_map` overwrites the caller's coordinate columns. The model keeps this as a class, `RouteMap.ActivityFrame`, whose fields `GenerateFoliumMap` updates.

## Model

| member | source | states |
|---|---|---|
| Units.Contains | src/strava_dash/utils.py:209 | Python's `t in s` on strings; characterised both ways by Units.ContainsIff |
| Units.FindColumns | src/strava_dash/utils.py:208-211 | a name is selected exactly when it is a column name containing the term as a case-sensitive substring; never more names than columns |
| Units.ContainsIff | src/strava_dash/utils.py:209 | the substring test holds exactly when the term is a prefix of some suffix of the name |
| Units.FindColumnsAppend | src/strava_dash/utils.py:208-211 | selection keeps column order: selecting from `a + b` is selecting from `a`, then from `b` |
| Units.FindColumnsDistinct | src/strava_dash/utils.py:208-211 | with distinct column names, each selected name appears once |
| Units.ConvertCell | src/strava_dash/utils.py:218-236 | one cell under one conversion; its value is stated by Units.ConvertedCells, Units.NumericCells and Units.DurationCell; text fails (Units.PipelineRejectsText), and so does a missing or infinite seconds count under the time rewrite (Units.TimeRejectsNonFinite) |
| Units.ConvertColumn | src/strava_dash/utils.py:220-236 | an element-wise column rewrite: name and length kept on success; cell by cell by Units.ConvertCells, success by Units.ConvertColumnSome |
| Units.ConvertCells | src/strava_dash/utils.py:220 | a column converts exactly when every cell does, cell by cell, length kept |
| Units.ConvertNamed | src/strava_dash/utils.py:220 | `df[name] = f(df[name])` succeeds exactly when the named column converts; only that column changes and the column names are kept |
| Units.Assign | src/strava_dash/utils.py:236 | assigning to a missing column fails with `MissingColumn`; success keeps the column names |
| Units.ConvertEach | src/strava_dash/utils.py:219-220 | one `for` loop as a value: column names kept on success; per column by Units.ConvertEachPerColumn and Units.ConvertStage |
| Units.AfterDistance | src/strava_dash/utils.py:218-220 | the table after the distance loop; per column by Units.AfterDistancePerColumn |
| Units.AfterTime | src/strava_dash/utils.py:218-228 | the table after the time loop, with the selection re-run on the converted table; per column by Units.AfterTimePerColumn |
| Units.AfterSpeed | src/strava_dash/utils.py:218-233 | the table after the speed loop; per column by Units.AfterSpeedPerColumn |
| Units.ConvertUnitsSpec | src/strava_dash/utils.py:214-238 | the whole of `convert_units` as a value; its meaning is stated by Units.ConvertUnitsPerColumn, Units.ConvertUnitsPassThrough and Units.ConvertUnitsNeedsElevation |
| Units.ConvertSelected | src/strava_dash/utils.py:219-220 | the loop over the selected columns returns exactly the specification `ConvertEach` (first failure wins) |
| Units.ConvertUnits | src/strava_dash/utils.py:214-238 | the method (copy, three loops, elevation rounding) returns exactly the specification `ConvertUnitsSpec` |
| Units.NumericCells | src/strava_dash/utils.py:218-233 | a distance cell becomes `round(v / 1000, digits)` and a speed cell `round(v * 3.6, digits)`, for integers and reals |
| Units.ConvertEachPerColumn | src/strava_dash/utils.py:219-220 | one loop succeeds exactly when each selected column converts, and leaves every unselected column unchanged |
| Units.ConvertStage | src/strava_dash/utils.py:218-233 | one loop over `findColumns(df, term)` rewrites exactly the columns whose name contains the term |
| Units.AssignPerColumn | src/strava_dash/utils.py:236 | the final rounding succeeds exactly when `total_elevation_gain` exists and converts, and touches no other column |
| Units.AfterDistancePerColumn | src/strava_dash/utils.py:218-220 | after the distance loop each column is its own distance stage; the loop succeeds exactly when every column's stage does |
| Units.AfterTimePerColumn | src/strava_dash/utils.py:218-228 | the same after the time loop |
| Units.AfterSpeedPerColumn | src/strava_dash/utils.py:218-233 | the same after the speed loop |
| Units.StageOf | src/strava_dash/utils.py:218-233 | a rewrite applied to a column only when its loop selects it |
| Units.DistanceStage | src/strava_dash/utils.py:218-220 | a column after the distance loop; see Units.PipelineDistance |
| Units.TimeStage | src/strava_dash/utils.py:223-228 | a column after the time loop; see Units.PipelineTime |
| Units.SpeedStage | src/strava_dash/utils.py:231-233 | a column after the speed loop; see Units.PipelineSpeed |
| Units.ColumnPipeline | src/strava_dash/utils.py:214-238 | one column's own sequence of rewrites; characterised by Units.PipelineSingle, Units.PipelineUntouched, Units.PipelineElevation, Units.PipelineDistance, Units.PipelineSpeed, Units.PipelineTime and Units.PipelineRejectsText |
| Units.ConvertUnitsPerColumn | src/strava_dash/utils.py:214-238 | `convert_units` succeeds exactly when every column survives its own sequence of rewrites, and each result column is that column's pipeline |
| Units.ConvertUnitsPassThrough | src/strava_dash/utils.py:214-238 | a column matching none of "distance", "time", "speed" and not named `total_elevation_gain` comes out unchanged |
| Units.ConvertUnitsNeedsElevation | src/strava_dash/utils.py:236 | without a `total_elevation_gain` column the call fails |
| Units.ElevationNameMatchesNoLoop | src/strava_dash/utils.py:218-236 | `total_elevation_gain` is selected by none of the three loops |
| Units.MissingCharNotContained | src/strava_dash/utils.py:209 | a name lacking one character of the term does not contain it |
| Units.MissingPairNotContained | src/strava_dash/utils.py:209 | a name in which the term's first two characters never stand side by side does not contain it |
| Units.PipelineSingle | src/strava_dash/utils.py:218-233 | a column matching exactly one of the three terms goes through exactly that one conversion |
| Units.PipelineUntouched | src/strava_dash/utils.py:214-238 | a column that no rewrite selects passes through unchanged |
| Units.PipelineElevation | src/strava_dash/utils.py:236 | `total_elevation_gain` is only rounded |
| Units.ConvertColumnSome | src/strava_dash/utils.py:220-236 | a column of numbers (integers for the time rewrite) always converts |
| Units.ConvertedCells | src/strava_dash/utils.py:220-236 | the value of every converted cell, for each conversion: distances divided by 1000 and speeds multiplied by 3.6 then rounded, seconds (fractional ones taken down to whole seconds) written as `"D days HH:MM"`, integers kept and reals rounded by the plain rounding; NaN and infinities pass through the numeric ones |
| Units.PipelineDistance | src/strava_dash/utils.py:218-220 | a distance column holds `round(v / 1000, digits)` of each value |
| Units.PipelineSpeed | src/strava_dash/utils.py:231-233 | a speed column holds `round(v * 3.6, digits)` of each value |
| Units.PipelineTime | src/strava_dash/utils.py:223-228 | a time column holds the `"D days HH:MM"` text of each number of seconds, a fractional count taken down to whole seconds first |
| Units.TimeRejectsNonFinite | src/strava_dash/utils.py:223-228 | a NaN or infinite seconds count cannot become a timedelta, so the time rewrite of its column fails |
| Units.PipelineTimeRejectsNonFinite | src/strava_dash/utils.py:223-228 | a NaN or infinite cell in a time column makes the whole call fail |
| Units.DurationCell | src/strava_dash/utils.py:225-228 | a seconds cell becomes the duration text of those seconds |
| Units.PipelineRejectsText | src/strava_dash/utils.py:218-233 | a text cell in a distance, time or speed column makes the call fail |
| Numeric.Round | src/strava_dash/utils.py:218-236 | `round(x, digits)`; characterised by Numeric.RoundError, Numeric.RoundNonNegative and Numeric.RoundExact, ties by Numeric.RoundHalfEven |
| Numeric.RoundHalfEven | src/strava_dash/utils.py:220 | the result is within one half of the input, non-negative for non-negative input, and even on a tie |
| Numeric.RoundError | src/strava_dash/utils.py:218-236 | `round(x, digits)` moves `x` by at most half a unit in the last kept decimal |
| Numeric.RoundNonNegative | src/strava_dash/utils.py:218-236 | rounding keeps a non-negative value non-negative |
| Numeric.RoundExact | src/strava_dash/utils.py:218-236 | a value that already has at most `digits` decimals is unchanged |
| Duration.Format | src/strava_dash/utils.py:225-228 | the `"D days HH:MM"` text; its meaning is stated by Duration.FormatRoundTrip (the text gives back the seconds down to the minute) and Duration.FormatShape (an unpadded day count, then two-digit hours and minutes) |
| Duration.Components | src/strava_dash/utils.py:225-227 | days, hours in `0..23` and minutes in `0..59` recompose the seconds less the dropped seconds; days are non-negative for non-negative input |
| Duration.Pad2 | src/strava_dash/utils.py:227 | `{n:02}` is two digits |
| Duration.DigitsRoundTrip | src/strava_dash/utils.py:227 | the decimal text of a natural number is non-empty, reads back as that number, and starts with '0' only for zero (no padding) |
| Duration.IntTextRoundTrip | src/strava_dash/utils.py:227 | the text of any integer, sign included, reads back as that integer |
| Duration.Pad2RoundTrip | src/strava_dash/utils.py:227 | a two-digit field reads back as its number |
| Duration.FormatRoundTrip | src/strava_dash/utils.py:223-228 | the duration text reads back as the seconds rounded down to a whole minute: only the seconds are lost |
| Duration.FormatShape | src/strava_dash/utils.py:227 | the text ends in `HH:MM` with two-digit fields, and everything before ` days HH:MM` is the plain, unpadded decimal text of the day count |
| Stats.Sum | app/main.py:73-76 | the `sum` aggregation; characterised by Stats.SumAppend, Stats.SumBounds and Stats.SumNonNegative |
| Stats.IntSum | app/main.py:74-75 | the `sum` aggregation of the integer time columns; stated against the reference sums by Aggregation.GroupIntSum |
| Stats.Mean | app/main.py:78 | the `mean` aggregation; bounded by Stats.MeanBounds |
| Stats.Products | app/main.py:83 | the element-wise `average_speed * distance`; bounded by Stats.WeightedSumBounds |
| Stats.Max | app/main.py:77 | the maximum is at least every element and equals one of them |
| Stats.Min | app/main.py:78 | the minimum is at most every element and equals one of them |
| Stats.SumAppend | app/main.py:73-76 | the sum of a concatenation is the sum of the sums |
| Stats.SumBounds | app/main.py:73-78 | a sum of `n` terms lies between `n` times the least and `n` times the greatest term |
| Stats.SumAtLeastTerm | app/main.py:73 | a sum of non-negative terms is at least each term |
| Stats.SumNonNegative | app/main.py:73 | a sum of non-negative terms is non-negative |
| Stats.MeanBounds | app/main.py:78 | the mean lies between the minimum and the maximum |
| Stats.SumScale | app/main.py:83 | scaling every term scales the sum |
| Stats.SumMonotone | app/main.py:83 | a sum is monotone in its terms |
| Stats.TermsBetween | app/main.py:83 | each product `v * w` with `w >= 0` lies between `w * lo` and `w * hi` |
| Stats.WeightedSumBounds | app/main.py:83 | with non-negative weights, the weighted sum lies between the total weight times the least and times the greatest value |
| Stats.WeightedMeanBetween | app/main.py:83 | with non-negative weights of positive total, a weighted mean of values in `[lo, hi]` lies in `[lo, hi]` |
| Stats.WeightedMeanBounds | app/main.py:83 | the weighted mean lies between the minimum and the maximum value |
| Stats.WeightedSumZeroWeights | app/main.py:83 | with all weights zero the weighted sum is zero |
| Dashboard.Ordinal | app/main.py:37-39 | day numbers of dates, as `date.toordinal`; differences stated by Dashboard.DaysInYear and Dashboard.NextNewYear |
| Dashboard.DaysInYear | app/main.py:36-39 | Dec 31 minus Jan 1 plus one is 366 in a Gregorian leap year and 365 otherwise |
| Dashboard.NextNewYear | app/main.py:37-39 | the day count is the distance from this January 1 to the next |
| Dashboard.GoalDates | app/main.py:44 | the dates start on January 1, advance one day at a time and number one per day of the year |
| Dashboard.GoalDatesEnd | app/main.py:44 | the last date is December 31, the day before the next January 1 |
| Dashboard.GoalDistances | app/main.py:42-45 | `daily_distance_goal * (goal_dates - start_date).days`; characterised by Dashboard.GoalCurve |
| Dashboard.GoalCurve | app/main.py:42-45 | the goal curve has one point per day, starts at 0, grows by the daily goal each day, is strictly increasing and ends one daily goal short of 8000 |
| Dashboard.LinearCurve | app/main.py:45 | a sequence `rate * i` with positive rate starts at 0, climbs by `rate` per step and ends at `total - rate` |
| Dashboard.Shorten | app/main.py:52-54 | `x[:40]`; characterised by Dashboard.ShortenPrefix |
| Dashboard.ShortenPrefix | app/main.py:52-54 | a shortened name is a prefix of the original, `min(len, 40)` long, unchanged exactly when at most 40 characters, and shortening again changes nothing |
| Dashboard.ShortenNames | app/main.py:52-54 | every name of the column becomes its own prefix of `min(len, 40)` characters, count kept |
| Aggregation.Insert | app/main.py:61 | inserting a position into a sorted list of earlier positions keeps it sorted and adds exactly that position |
| Aggregation.SortOrder | app/main.py:61 | the ascending order lists every position once, sorted by start date |
| Aggregation.SortedPrefix | app/main.py:61 | the positions up to `i` in ascending start order; as a set by Aggregation.SortedPrefixIsPreceding |
| Aggregation.YearSumOver | app/main.py:62-63 | the cumulative sum of one year's distances along the sort order; as a set sum by Aggregation.YearSumOverSet |
| Aggregation.AnnualCumulativeDistance | app/main.py:57-64 | the `cumulative_distance` column, one entry per activity; its value is stated by Aggregation.AnnualCumulativeIsRunningTotal, Aggregation.AnnualCumulativeRestarts, Aggregation.AnnualCumulativeMonotone and Aggregation.AnnualCumulativeEndsAtTotal |
| Aggregation.AnnualCumulativeIsRunningTotal | app/main.py:57-64 | each activity's cumulative distance is the sum over the same-year activities that sort no later than it |
| Aggregation.AnnualCumulativeRestarts | app/main.py:57-64 | the first activity of a year gets its own distance: the sum restarts every year |
| Aggregation.AnnualCumulativeMonotone | app/main.py:57-64 | with non-negative distances the cumulative distance never decreases within a year |
| Aggregation.RunningTotalMonotone | app/main.py:57-64 | the reference running total is monotone along the sort order within a year |
| Aggregation.AnnualCumulativeEndsAtTotal | app/main.py:57-64 | the last activity of a year carries the year's total distance |
| Aggregation.YearSumOverSet | app/main.py:62-63 | summing along distinct positions in order is summing over the set of those positions |
| Aggregation.SortedPrefixIsPreceding | app/main.py:61 | the positions up to `i` in sort order are exactly those sorting no later than `i` |
| Aggregation.InUtcYear | app/main.py:69-70 | an activity is in a year's group exactly when its UTC year is that year |
| Aggregation.SummaryYears | app/main.py:68-88 | the group keys are strictly descending, and a year is a key exactly when some activity has it |
| Aggregation.DescInsert | app/main.py:88 | inserting a year into a strictly descending list keeps it strictly descending and adds exactly that year |
| Aggregation.Summarize | app/main.py:69-83 | the `agg` call and the weighted speed of one group; field by field by Aggregation.GroupTotals, Aggregation.GroupMaxSpeed, Aggregation.GroupAverageSpeed and Aggregation.GroupWeightedSpeed |
| Aggregation.AnnualSummaries | app/main.py:68-88 | one row per year of Aggregation.SummaryYears, in that order, with a weighted speed that is never text; rows by Aggregation.AnnualSummaryRow |
| Aggregation.AnnualSummaryRow | app/main.py:69-83 | row `k` summarises the non-empty group of the `k`-th year |
| Aggregation.AnnualSummaryYearsDescending | app/main.py:86-88 | the summary rows are keyed by strictly descending years |
| Aggregation.AnnualSummaryYearsOccur | app/main.py:69-70 | every row's year is the UTC year of some activity |
| Aggregation.AnnualSummaryYearsComplete | app/main.py:69-70 | every activity's UTC year has a row |
| Aggregation.AnnualSummaryCounts | app/main.py:69-72 | the `n_activities` counts add up to the number of activities |
| Aggregation.GroupSizesTotal | app/main.py:69-72 | over distinct years covering every activity, the group sizes add up to the number of activities |
| Aggregation.GroupSum | app/main.py:73-76 | summing a real field over a year's group equals the filtered sum over all activities of that year |
| Aggregation.GroupIntSum | app/main.py:74-75 | the same for integer fields |
| Aggregation.GroupTotals | app/main.py:73-76 | a group's four totals are the sums of the corresponding fields |
| Aggregation.AnnualSummaryTotals | app/main.py:73-76 | a row's total distance, moving time, elapsed time and elevation gain are the sums of those fields over all activities of its UTC year |
| Aggregation.GroupMaxSpeed | app/main.py:77 | a group's `max_speed` is at least every activity's and equals one of them |
| Aggregation.GroupAverageSpeed | app/main.py:78 | a group's mean speed lies between two of its activities' speeds |
| Aggregation.SlowestAndFastest | app/main.py:78 | a group has activities with the least and the greatest average speed |
| Aggregation.WeightedSpeed | app/main.py:81-83 | `(average_speed * distance).sum() / distance.sum()` with numpy division: never text or an integer; bounds by Aggregation.WeightedSpeedBetween, NaN by Aggregation.GroupWeightedSpeedUndefined |
| Aggregation.PositiveTotalDistance | app/main.py:83 | non-negative distances, one of them positive, have a positive sum |
| Aggregation.WeightedSpeedBetween | app/main.py:83 | with non-negative distances of positive total, the weighted speed is a number between the least and greatest speed |
| Aggregation.GroupWeightedSpeed | app/main.py:81-83 | the same, witnessed by two activities of the group |
| Aggregation.GroupWeightedSpeedUndefined | app/main.py:83 | with all distances zero the weighted speed is NaN (0/0) |
| Aggregation.AnnualSummaryMaxSpeed | app/main.py:77 | a row's maximum speed is the largest `max_speed` of its UTC year |
| Aggregation.AnnualSummaryAverageSpeed | app/main.py:78 | a row's mean speed lies between the slowest and the fastest speed of its year |
| Aggregation.AnnualSummaryWeightedSpeed | app/main.py:81-83 | with non-negative, not all zero distances, a row's weighted speed is a number between two speeds of its year |
| Aggregation.RowWeightedSpeed | app/main.py:81-83 | a row's weighted speed is the weighted speed of its year's group |
| Aggregation.AnnualSummaryWeightedSpeedUndefined | app/main.py:81-83 | a year whose distances are all zero has a NaN weighted speed |
| Aggregation.WeightedColumn | app/main.py:81 | the `average_speed_weighted` column; its displayed cells are stated by Aggregation.DisplayedWeightedSpeed |
| Aggregation.YearColumn | app/main.py:86-87 | the reset year index as integers; stated by Aggregation.DisplayedYear |
| Aggregation.SummaryTable | app/main.py:85-87 | `convert_units` on the summary rows, year put first; by Aggregation.SummaryTableConverts, Aggregation.SummaryTableRows and Aggregation.SummaryTableColumn |
| Aggregation.AnnualSummariesReady | app/main.py:68-88 | the displayed table; always present (Aggregation.AnnualSummariesReadyOk), its cells stated by Aggregation.DisplayedYear through Aggregation.DisplayedWeightedSpeed |
| Aggregation.SummaryColumns | app/main.py:69-81 | the eight summary columns, each with one cell per row |
| Aggregation.CountColumnUntouched | app/main.py:85 | `n_activities` is not touched by `convert_units` |
| Aggregation.DistanceColumnInKilometres | app/main.py:85 | `total_distance` is converted to kilometres only |
| Aggregation.MovingTimeColumnAsDuration | app/main.py:85 | `total_moving_time` is converted to duration text only |
| Aggregation.ElapsedTimeColumnAsDuration | app/main.py:85 | `total_elapsed_time` is converted to duration text only, though it holds every letter of "speed" |
| Aggregation.SpeedOnly | app/main.py:85 | a name containing "speed" that lacks a letter of "distance" and one of "time" is converted to km/h only |
| Aggregation.MaxSpeedColumnInKmPerHour | app/main.py:85 | `max_speed` is converted to km/h only |
| Aggregation.AverageSpeedColumnInKmPerHour | app/main.py:85 | `average_speed` and `average_speed_weighted` are converted to km/h only |
| Aggregation.SummaryColumnConverts | app/main.py:85 | every summary column survives its rewrites |
| Aggregation.SummaryTableConverts | app/main.py:85 | `convert_units` on the summaries always succeeds |
| Aggregation.AnnualSummariesReadyOk | app/main.py:68-88 | the displayed summary table always exists |
| Aggregation.SummaryTableRows | app/main.py:85-88 | every displayed column has one cell per summary row |
| Aggregation.SummaryTableColumn | app/main.py:85-87 | displayed column `i + 1` is summary column `i` after its rewrites |
| Aggregation.SummaryTableConverted | app/main.py:85-87 | displayed column `i + 1` is summary column `i` converted by its one conversion |
| Aggregation.SummaryConversion | app/main.py:85 | the one conversion each summary column gets; justified per name by Aggregation.PipelineByName |
| Aggregation.PipelineByName | app/main.py:85 | each named summary column goes through exactly its one conversion |
| Aggregation.DisplayedYear | app/main.py:86-87 | the first displayed column is each row's year as an integer |
| Aggregation.DisplayedCount | app/main.py:72-85 | the activity count is shown unchanged |
| Aggregation.DisplayedDistances | app/main.py:73-85 | total distance is shown in kilometres and elevation gain as is, both rounded to one decimal |
| Aggregation.DisplayedTimes | app/main.py:74-85 | moving and elapsed times are shown as the duration text of their seconds |
| Aggregation.DisplayedSpeeds | app/main.py:77-85 | maximum and mean speeds are shown in km/h rounded to one decimal |
| Aggregation.DisplayedWeightedSpeed | app/main.py:81-85 | the weighted speed is shown in km/h rounded to one decimal when it is a number, and unchanged when NaN or infinite |
| RouteMap.LabelColor | src/strava_dash/utils.py:146-161 | the fixed colour of each legend label; consistent with Classify (RouteMap.Classify) and distinct (RouteMap.PaletteDistinct) |
| RouteMap.Classify | src/strava_dash/utils.py:146-161 | every sport type gets one of the five labels with that label's fixed colour |
| RouteMap.ClassifyByLabel | src/strava_dash/utils.py:146-161 | which sport types get which label, in both directions; "Other" is exactly the rest |
| RouteMap.PaletteDistinct | src/strava_dash/utils.py:146-161 | no two labels share a colour |
| RouteMap.Lookup | src/strava_dash/utils.py:134-164 | a lookup misses exactly when the key is absent |
| RouteMap.Put | src/strava_dash/utils.py:164 | `d[label] = color`: a present key keeps its place and takes the value; an absent key goes last |
| RouteMap.PutLaws | src/strava_dash/utils.py:164 | after the assignment the key maps to the colour, other keys are unchanged, and keys stay distinct |
| RouteMap.LookupAt | src/strava_dash/utils.py:164 | in a legend with distinct keys, the lookup finds the entry holding the key |
| RouteMap.PutKeys | src/strava_dash/utils.py:164 | the assignment appends an absent key and leaves the keys alone otherwise |
| RouteMap.LegendFrom | src/strava_dash/utils.py:164 | the legend after `legend_items[label] = color` for each label seen; by RouteMap.LegendFromKeys, RouteMap.LegendFromColors and RouteMap.LegendFromOrder |
| RouteMap.LegendFromKeys | src/strava_dash/utils.py:164 | the legend's keys are distinct and are exactly the labels seen |
| RouteMap.LegendFromColors | src/strava_dash/utils.py:164 | every legend entry has its label's fixed colour |
| RouteMap.LegendFromOrder | src/strava_dash/utils.py:164 | the legend keys are in first-seen order |
| RouteMap.FirstSeenStep | src/strava_dash/utils.py:164 | seeing one more label keeps the first-seen order |
| RouteMap.ItemHtml | src/strava_dash/utils.py:177-182 | one legend block; its fields by RouteMap.ItemHtmlFields |
| RouteMap.LegendItemsHtml | src/strava_dash/utils.py:175-182 | the accumulated blocks; by RouteMap.LegendItemsHtmlPrefix and RouteMap.LegendItemsHtmlBlock |
| RouteMap.ItemHtmlFields | src/strava_dash/utils.py:177-182 | a legend block shows the entry's colour and label at fixed places |
| RouteMap.LegendItemsHtmlPrefix | src/strava_dash/utils.py:175-182 | the blocks of the first `k` entries are a prefix of the legend text |
| RouteMap.LegendItemsHtmlBlock | src/strava_dash/utils.py:175-182 | entry `k`'s block stands right after the blocks of the entries before it |
| RouteMap.Shown | src/strava_dash/utils.py:136-140 | the drawn positions are exactly those with a route, in increasing order |
| RouteMap.Drawn | src/strava_dash/utils.py:136-169 | the lines drawn; characterised by RouteMap.DrawnShown |
| RouteMap.ShownLabels | src/strava_dash/utils.py:136-164 | the labels seen by the drawing loop; by RouteMap.ShownLabelsShown |
| RouteMap.LegendOf | src/strava_dash/utils.py:136-164 | the legend the drawing loop builds; by RouteMap.LegendOfActivities |
| RouteMap.DrawnShown | src/strava_dash/utils.py:136-169 | one line per activity with a route and none otherwise, in table order, with the decoded route and the sport type's colour |
| RouteMap.ShownLabelsShown | src/strava_dash/utils.py:136-164 | the labels seen are those of the activities with a route, in table order |
| RouteMap.LegendOfActivities | src/strava_dash/utils.py:136-164 | the legend has one entry per distinct label among the activities with a route, in first-seen order, each with its label's colour |
| RouteMap.EvalLiteral | src/strava_dash/utils.py:116 | `ast.literal_eval` on one cell, failing on anything but text; used by RouteMap.EvalColumn and RouteMap.AutoCentreNotRepeatable |
| RouteMap.EvalColumn | src/strava_dash/utils.py:116 | evaluating a column succeeds exactly when every cell evaluates, cell by cell |
| RouteMap.Component | src/strava_dash/utils.py:118-119 | `x[0]` or `x[1]` of each evaluated cell, length kept |
| RouteMap.MeanPoint | src/strava_dash/utils.py:122-123 | `np.mean` of latitudes and longitudes, None for no coordinates; by RouteMap.MeanPointFacts |
| RouteMap.AutoCentre | src/strava_dash/utils.py:110-123 | the centring loop as a value: the overwritten columns and the centre or error; by RouteMap.AutoCentreSucceeds, RouteMap.AutoCentreEmpty, RouteMap.AutoCentreMean and RouteMap.AutoCentreNotRepeatable |
| RouteMap.AutoCentreSucceeds | src/strava_dash/utils.py:110-123 | automatic centring succeeds exactly when every start and end cell evaluates to a list of at least two numbers |
| RouteMap.AutoCentreEmpty | src/strava_dash/utils.py:122-123 | an empty table gives the NaN centre, and only an empty table does |
| RouteMap.AutoCentreMean | src/strava_dash/utils.py:118-123 | the centre is the mean of all start and end latitudes (longitudes) and lies within their range |
| RouteMap.MeanPointFacts | src/strava_dash/utils.py:122-123 | a mean point lies within the range of its coordinates |
| RouteMap.AutoCentreNotRepeatable | src/strava_dash/utils.py:116 | the columns are overwritten with evaluated lists, so centring the same non-empty table again fails |
| RouteMap.Render | src/strava_dash/utils.py:127-182 | the map around a centre: lines, legend and legend blocks, as stated by RouteMap.DrawnShown, RouteMap.LegendOfActivities and RouteMap.LegendItemsHtmlBlock |
| RouteMap.GenerateFoliumMap | src/strava_dash/utils.py:88-205 | with a given centre the coordinate columns are untouched; with automatic centring they are overwritten as `AutoCentre` says, and an error is returned where Python raises, including the NaN centre of an empty table; otherwise the result is the rendered model |
| RouteMap.DrawRoutes | src/strava_dash/utils.py:136-169 | the drawing loop produces exactly the drawn lines and the legend of the labels seen |
| RouteMap.LegendItems | src/strava_dash/utils.py:175-182 | the loop writes exactly one block per legend entry, in legend order |
| Geo.HasRoute | src/strava_dash/utils.py:138-140 | Python truthiness of a polyline cell; a falsy one draws nothing (RouteMap.Shown) and adds no rows (Polylines.SkippedContributesNothing) |
| Polylines.RowsOf | strava_dash/func.py:83-90 | the rows of one route; by Polylines.SkippedContributesNothing and Polylines.RowOrigin |
| Polylines.Flatten | strava_dash/func.py:81-90 | the rows of all routes in order; by Polylines.FlattenAppend, Polylines.RowCount, Polylines.RowOrigin and Polylines.IdMultiplicity |
| Polylines.Columns | strava_dash/func.py:92-99 | the three output columns of a list of rows; built incrementally as Polylines.ColumnsAppend states |
| Polylines.GetAllPolylines | strava_dash/func.py:77-101 | the nested loop always returns a table, and it is exactly the columns of the flattened rows |
| Polylines.ColumnsAppend | strava_dash/func.py:87-90 | appending a point appends its id, latitude and longitude to the three columns |
| Polylines.FlattenAppend | strava_dash/func.py:81-90 | output follows iteration order: the rows of `a + b` are those of `a`, then those of `b` |
| Polylines.SkippedContributesNothing | strava_dash/func.py:81-83 | an activity with a missing or empty polyline contributes no rows, wherever it stands |
| Polylines.RowCount | strava_dash/func.py:85-90 | the number of rows is the total number of decoded points of the routes that are not skipped |
| Polylines.RowOrigin | strava_dash/func.py:84-90 | every row is a decoded point of an activity that is not skipped, with that activity's id |
| Polylines.IdMultiplicity | strava_dash/func.py:84-90 | each id appears exactly as many times as its activities have decoded points |

## Left out

- Database access (`get_engine`, `fetch_data`): connection and credential I/O.
- `polyline.decode`: third-party code implementing Google's Encoded Polyline Algorithm Format. It is the parameter `decode` of type `Geo.Decoder`.
- Polylines.GetAllPolylines: the decoder is taken as total. `polyline.decode` raises on a malformed string, and on a NaN cell, which is truthy and so not skipped at strava_dash/func.py:83. The model's loop cannot fail there.
- RouteMap.DrawRoutes: the same holds for the drawing loop, whose skip test at src/strava_dash/utils.py:138 also lets a NaN cell through to `polyline.decode`. Missing cells are modelled as `None` only.
- `ast.literal_eval`: it is the parameter `parse`. The model keeps that the function accepts only text, so an already evaluated list or a missing cell raises.
- Folium rendering: creating the map, `PolyLine.add_to`, the legend container HTML and `mymap.save`. The model keeps the lines that would be drawn, the legend and the legend's HTML blocks.
- `get_density_fig`, the Plotly figures, the Dash layout and callbacks, and `strava_dash/main.py`: UI only. `strava_dash/main.py` calls `generate_folium_map()` with no arguments, and that function does not exist in `strava_dash/func.py`.
- `strava_dash/heatmap.py`: an older script with its own copy of the classification. It is not part of this model.
- Floating point. Reals are exact, so `round` is exact half-to-even rounding at `digits >= 0` decimals. Negative `digits` is not modelled.
- NaN inside a sum or a maximum is not modelled: activity fields are plain reals. Only the weighted speed, a division that can be 0/0 or x/0, carries NaN and infinity.
- Dates and time zones.
  - Each activity carries its tz-aware start year, its UTC start year and an integer start instant.
  - Parsing, `tz_convert` and the `Period` index are not modelled.
  - The current year is a parameter.
- Aggregation.SortOrder: `sort_values` uses an unstable quicksort. The model breaks ties in start date by table position, a stable order. With equal start dates the cumulative order can differ.
- Integer widths: pandas holds the integer columns as 64-bit values. The model uses unbounded integers.
- Units.ConvertCell: any integer number of seconds is formatted. `pd.to_timedelta(..., unit="s")` raises `OutOfBoundsTimedelta` beyond about ±9.2e9 seconds (64-bit nanoseconds), which the model does not reproduce.
- `app/main.py` imports `convert_units` and `generate_folium_map` from a module not shown (`app.func`). The `src/strava_dash/utils.py` versions are modelled in its place.
- Aggregation.AnnualCumulativeDistance: the cumulative column is added after `convert_units` in the script, so its distances are in rounded kilometres there. The model sums the `distance` field as given.
- Units.PipelineTime, Units.DurationCell and the displayed-time lemmas state the cell as `Duration.Format` of the seconds. That text reading back as the seconds less the dropped remainder is stated once, by Duration.FormatRoundTrip, and not repeated in each of them.
- Units.ConvertCell: a time cell that is NaN or infinite fails, as `Timedelta` components do on `NaT`. Fractional seconds are floored before formatting.

Behaviour the model keeps exactly as the code has it:

- Automatic centring raises on an unparsable or short coordinate cell; it does not skip it. `RouteMap.AutoCentre` returns an error there. An unparsable start cell fails before anything is assigned, so both columns are left as they were. A short start cell, or any failing end cell, fails after the start column has already been overwritten with its parsed literals.
- Negative seconds are not rejected. They are formatted with floor semantics (days negative, hours and minutes in range), as pandas `Timedelta` components do.
- The cumulative series groups by the tz-aware start year (app/main.py:59). The summaries group by the UTC year (app/main.py:70, 82). The model keeps both years.
- Automatic centring on an empty table gives `np.mean` of nothing, NaN, and `folium.Map` refuses a NaN location. `RouteMap.GenerateFoliumMap` returns `NaNLocation` there; the call on `activities.head(1)` at app/main.py:143-148 reaches this case when there are no activities.
- The weighted speed has no guard for a zero distance total. The model yields NaN or an infinity there, as numpy does.
