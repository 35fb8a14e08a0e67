# Library occupancy: a Dafny model

This project models the core of a web application that tracks how full the
University of Mannheim libraries (A3, A5, Jura/Ehrenhof, Schloss/Westflügel,
BWL/Schneckenhof) are. The model covers:

- **Scraping.** A scraper turns each library's status text into a percentage.
  It stores the percentage with a ten-minute slot ("chunk", 0..143) and the
  calendar day.
- **Views.** Several views turn the stored rows into chart series:
  - the daily series of `getDailyOccupancy`;
  - the per-slot graph points of `getDataForGraph`;
  - the chart data of the server actions;
  - the three-week average;
  - the filtering and merging done by the chart hook.
- **Forecasting.** `getPrediction` forecasts each slot of a day. It fits a
  least-squares regression over the same weekday of the previous eight weeks,
  with outliers removed. It then shifts the result by today's live reading.
- **Calendar.** The calendar picks each day's period type (exam, holiday, break,
  lecture) and its cell colour. It also counts down to the next exam or break.
- **Migration.** The scripts that move the old table to the new one do three
  things:
  - group the readings by library and day, and write 144 dense records per group;
  - validate that every group is complete;
  - print one day as a table.

Every operation is a pure function over immutable datatypes:

- database queries are filters over a sequence of stored rows;
- clocks and time zones are parameters;
- dates are integer day numbers or their year/month/day fields.

Percentages and averages are exact reals or integers. The source's JavaScript
arithmetic is written out explicitly:

- `Math.round` is `Numeric.Round`;
- the truncating `%` is `Numeric.JsRem`;
- `padStart(2, '0')` is `Text.PadStart2`;
- `toFixed(0)` is `Prediction.HourField`.

Modules follow the source files:

| module | source |
|---|---|
| `Slots` | the 144-slot arithmetic shared by all files |
| `Scraper` | `lib/scraper.ts` |
| `Server` | `server.ts` |
| `Occupancy` | `lib/occupancy.ts` |
| `LiveMerge` | `hooks/use-occupancy.tsx` |
| `PredictionStats`, `Prediction` | `lib/prediction.ts` |
| `DayData` | `src/actions/data.action.ts` |
| `GraphWindow` | `utils/db.ts` |
| `Home` | `src/components/HomePage.tsx` |
| `GraphView` | `src/hooks/useGraphData.tsx` |
| `CalendarPeriods`, `CalendarHelpers` | `components/calendar/utils/calendarHelpers.ts` |
| `CalendarLegacy` | `src/components/calendar/utils/calendarHelpers.ts` |
| `LibraryNames` | `lib/libraryNames.ts` |
| `Formatter` | `src/utils/formatter.ts` |
| `Migration`, `Validation`, `Visualize` | `script/mitgrate_v2/` |

`Wrappers`, `Numeric`, `Text`, `Collections` and `Sorting` are helper modules.

## Behaviour worth knowing

- **Negative baselines.** The forecaster's baseline is not clamped at 0 when it
  is computed. Only the final prediction is clamped to 0..100.
  `PredictionStats.FallingTrendGivesNegativeBaseline` exhibits a baseline of -48.
- **Slots without history.** A slot without usable history is predicted as 0
  (`predBase` keeps its fill value). It does not come out as no prediction
  (`Prediction.OtherDayForecast`).

## Model

| member | source | states |
|---|---|---|
| Slots.ComputeChunk | lib/scraper.ts:40-42 | the slot of a wall-clock time is the ten-minute interval containing it, and lies in 0..143 for a valid hour and minute |
| Slots.FormatTimeInjective | lib/occupancy.ts:68-72 | two chunks with the same "HH:MM" label are the same chunk, for every integer chunk |
| Slots.FormatTimeInDay | lib/occupancy.ts:68-72 | inside a day the label is the padded hour and the slot's start minute, five characters with ':' in the middle |
| Slots.ComputeChunkQuantizes | lib/scraper.ts:40-42 | the label of the slot of h:m is h and the minute rounded down to a multiple of ten |
| Slots.SlotRoundTrip | lib/scraper.ts:40-42 | decoding a slot to hour and minute and encoding again returns the slot |
| Scraper.FirstMatch | lib/scraper.ts:30-35 | no result iff no keyword occurs; otherwise the target of the first entry whose keyword occurs |
| Scraper.NormalizeName | lib/scraper.ts:22-35 | a name without any keyword is kept; otherwise it becomes the target of the first matching keyword in table order |
| Scraper.A3Wins | lib/scraper.ts:22-35 | a name mentioning "A3" becomes "A3" whatever else it mentions |
| Scraper.NoKeyword | lib/scraper.ts:22-35 | a name without any of the five keywords is left unchanged |
| Scraper.TargetsAreFixed | lib/scraper.ts:22-35 | each of the five targets normalises to itself |
| Scraper.NormalizeNameRange | lib/scraper.ts:30-35 | a normalised name is the raw name or one of the five targets |
| Scraper.NormalizeNameIdempotent | lib/scraper.ts:30-35 | normalising twice equals normalising once |
| Scraper.SkipSpacesShape | lib/scraper.ts:100-101 | `parseInt`'s leading white space: everything skipped is white space and what remains does not start with it |
| Scraper.LeadingDigits | lib/scraper.ts:100-101 | the digits `parseInt` reads are the longest all-digit prefix |
| Scraper.RemoveFirst | lib/scraper.ts:100-101 | `replace('%', '')` removes only the first occurrence and keeps the text around it |
| Scraper.Percentage | lib/scraper.ts:100-101 | a status without '%' stores 0 |
| Scraper.ParseIntOfNumber | lib/scraper.ts:100-101 | `parseInt` reads back the decimal form of every integer followed by any non-digit text |
| Scraper.PercentageOfLabel | lib/scraper.ts:100-101 | the status "<n>%" stores n, for every integer n |
| Scraper.BuildRow | lib/scraper.ts:91-111 | every row, also one whose extraction throws, carries the scrape's date, `iat` and `ttl` |
| Scraper.BuildRows | lib/scraper.ts:91-111 | one row per table row, all with the scrape's metadata |
| Scraper.ScrapeRows | lib/scraper.ts:80-111 | rows of one scrape share date, `iat` and `ttl`; an unreadable row stores 0 for "" in chunk 0; a readable row stores its normalised name, its status percentage and the scrape's slot |
| Server.EncodeTo10MinuteChunk | server.ts:88-92 | the stored chunk is the NEAREST ten-minute mark to the time of day, within 0..144 |
| Server.ChunkFractionIsExact | server.ts:88-92 | the value rounded is the time of day measured in ten-minute slots |
| Server.EncodeReaches144 | server.ts:88-92 | the chunk is 144, outside the day's slots, exactly from 23:55:00.000 on |
| Server.EncodeMonotone | server.ts:88-92 | a later time of day never gets an earlier chunk |
| Server.EncodeRoundsAtHalfSlot | server.ts:88-92 | 00:04:59 gives chunk 0 but 00:05:00 gives chunk 1, while the slot containing 00:05 is 0 |
| Server.StampEntry | server.ts:54-81 | the stored day is the UTC day of the instant and the chunk lies in 0..144 |
| Server.StampMixesClocks | server.ts:59-63 | at 23:30 UTC on a UTC+2 server the row gets UTC day 0 but the chunk of 01:30, which is on local day 1 |
| Occupancy.NameKeys | lib/occupancy.ts:47-49 | one name key per row, "" for a null name |
| Occupancy.LibrariesAreSortedNames | lib/occupancy.ts:46-50 | the libraries are exactly the names of either row set, each once, strictly ascending |
| Occupancy.SlotMapIsLastRow | lib/occupancy.ts:53-65 | the lookup maps hold, per library and chunk, the value of the LAST complete row; incomplete rows are ignored |
| Occupancy.PointFor | lib/occupancy.ts:82-89 | each point is labelled with its chunk's "HH:MM" |
| Occupancy.LibrarySeries | lib/occupancy.ts:80-91 | one point per chunk start..end (none when end < start), point i being chunk start + i |
| Occupancy.GetDailyOccupancy | lib/occupancy.ts:74-95 | keys are exactly the libraries of either row set; each series has end - start + 1 points, or none |
| Occupancy.SeriesPoint | lib/occupancy.ts:81-91 | point i: label of chunk start + i, occupancy the last reading or 0, prediction present exactly when a prediction row exists |
| Occupancy.MissingReadingIsZero | lib/occupancy.ts:84 | a slot without any reading shows occupancy 0, not null |
| Occupancy.NoRowNoValue | lib/occupancy.ts:53-58 | without a complete row for a library and chunk there is no value |
| LiveMerge.PredKeyInjective | hooks/use-occupancy.tsx:40 | distinct libraries get distinct "-pred" keys |
| LiveMerge.PredEntries | hooks/use-occupancy.tsx:40 | the prediction entries are exactly the prediction libraries renamed with "-pred", with their points |
| LiveMerge.MergeLive | hooks/use-occupancy.tsx:36-43 | the merged object keeps the live object's date |
| LiveMerge.MergedKeys | hooks/use-occupancy.tsx:36-43 | live keys keep their points unless a "-pred" key overwrites them; every prediction key appears renamed; no other keys |
| LiveMerge.MergedSize | hooks/use-occupancy.tsx:36-43 | the merged object has at most as many keys as both inputs together |
| PredictionStats.KeepInBand | lib/prediction.ts:66-74 | the kept points are a subsequence of the input holding every point within the band exactly as often as the input does, and no other point |
| PredictionStats.FilterOutliers | lib/prediction.ts:62-75 | fewer than three points are returned unchanged; otherwise the result is a subsequence holding each point within 1.5 standard deviations of the mean as often as the input does, and no other point |
| PredictionStats.SomeReadingNearMean | lib/prediction.ts:64-65 | some reading is always within one standard deviation of the mean |
| PredictionStats.FilterOutliersKeepsSome | lib/prediction.ts:62-75 | a non-empty history never loses every point to the outlier filter |
| PredictionStats.ZeroVarianceKeepsAll | lib/prediction.ts:65 | with zero variance (where the source falls back to a standard deviation of 1) every point is kept |
| PredictionStats.LinearRegression | lib/prediction.ts:41-60 | no line for fewer than two points or a zero denominator; otherwise the line solves the least-squares normal equations |
| PredictionStats.FitFromSums | lib/prediction.ts:55-59 | the source's closed-form slope and intercept solve the normal equations |
| PredictionStats.NormalEquations | lib/prediction.ts:55-59 | the closed form satisfies both normal equations |
| PredictionStats.Baseline | lib/prediction.ts:196-209 | a baseline is at most 100 and at most the largest reading, and 0 without data |
| PredictionStats.MeanAtMostMax | lib/prediction.ts:207-208 | the mean of the readings is at most their maximum |
| PredictionStats.FlatHistoryPredictsLevel | lib/prediction.ts:196-209 | a history that always read v predicts min(v, 100), with or without a fitted line |
| PredictionStats.FlatLineIsLevel | lib/prediction.ts:55-59 | for flat data the only least-squares line is intercept v, slope 0 |
| PredictionStats.FallingTrendGivesNegativeBaseline | lib/prediction.ts:203 | nothing clamps the baseline below: readings 1 and 50 one and two weeks back extrapolate to -48 |
| Prediction.ChunkToTimeRoundsHour | lib/prediction.ts:33-34 | the label's hour is c / 6 ROUNDED to the nearest hour, not floored |
| Prediction.ChunkToTimeMatchesSlotLabel | lib/prediction.ts:33-34 | the label equals the slot's own "HH:MM" exactly in the first half of each hour |
| Prediction.ChunkToTimeHalfPastOne | lib/prediction.ts:33-34 | chunk 3 is labelled "01:30" |
| Prediction.ChunkToTimeHalfPastEleven | lib/prediction.ts:33-34 | chunk 141 (23:30) is labelled "24:30" |
| Prediction.ChunkToTimeNegative | lib/prediction.ts:33-34 | chunk -1 is labelled "-0:-10" |
| Prediction.WeeksBack | lib/prediction.ts:36-38 | n days, the i-th being i + 1 weeks before the target |
| Prediction.From2000WeeksBack | lib/prediction.ts:38 | the year filter keeps exactly the first min(n, target / 7) weeks |
| Prediction.HistoryDays | lib/prediction.ts:36-39 | the same weekday of up to eight previous weeks from 2000 on, most recent first; empty exactly in the first week of 2000 or earlier |
| Prediction.OffsetOfWeeksBack | lib/prediction.ts:169-176 | the day k weeks back has week offset k |
| Prediction.Query | lib/prediction.ts:95-110 | the query returns a subsequence of the store holding each row whose day was asked for as often as it is stored, and no other row |
| Prediction.DayReadings | lib/prediction.ts:133-140 | the reference readings of a library and day are all valid |
| Prediction.DaySumsCountReadings | lib/prediction.ts:120-141 | the running day totals are the sum and count of the day's valid readings |
| Prediction.AllowedDayIff | lib/prediction.ts:144-151 | a day is allowed iff it has valid readings summing to at least 10 per reading |
| Prediction.OtherRowsDoNotAffectDay | lib/prediction.ts:120-151 | rows of other libraries or days and readings below 1 do not change whether a day is allowed |
| Prediction.DayAverageThreshold | lib/prediction.ts:148 | a day averaging 9 is rejected and one averaging 10 is kept |
| Prediction.PositivePerChunk | lib/prediction.ts:125-126 | every counted (day, chunk) has count at least 1 |
| Prediction.NoChunkIsMissing | lib/prediction.ts:154-156 | the missing-chunk set is always empty |
| Prediction.LastLiveReading | lib/prediction.ts:127-129 | a live reading is always at least 1 |
| Prediction.LiveOccIsLastReading | lib/prediction.ts:127-129 | the live map holds the last valid reading of the target day per library and chunk |
| Prediction.TrainingRows | lib/prediction.ts:160-185 | the rows that train a library and chunk: a subsequence of the rows holding each admissible row as often as it occurs, and no other row |
| Prediction.Series | lib/prediction.ts:160-185 | one (week offset, reading) pair per training row, in row order and with repeats, each reading at least 1 |
| Prediction.SeriesPairHasRow | lib/prediction.ts:160-185 | every pair of a slot's series is the week offset and reading of some admissible row |
| Prediction.SeriesRowHasPair | lib/prediction.ts:160-185 | every admissible row of the library and chunk puts its week offset and reading into the series |
| Prediction.SeriesMembership | lib/prediction.ts:160-185 | a (week offset, reading) pair is in a slot's series iff some admissible row of that library and chunk produced it |
| Prediction.TodayTrainsAtOffsetZero | lib/prediction.ts:95-185 | today's valid readings train the model at week offset 0 when today is an allowed day |
| Prediction.SlotBaseline | lib/prediction.ts:191-209 | a slot's baseline is at most 100, and 0 without training data |
| Prediction.FlatSlotHistory | lib/prediction.ts:196-209 | a slot whose training readings all equal v has baseline v |
| Prediction.SlotPoint | lib/prediction.ts:217-226 | the point carries its label and reading; it has a prediction iff there is no reading and it is not a past or current slot of today; any prediction lies in 0..100 |
| Prediction.PointOf | lib/prediction.ts:217-225 | each point is labelled with `chunkToTime` of its chunk |
| Prediction.LibraryPoints | lib/prediction.ts:217-227 | one point per chunk start..end |
| Prediction.LibraryPointTimes | lib/prediction.ts:225 | point i of every library is labelled with chunk start + i |
| Prediction.GetPrediction | lib/prediction.ts:93-249 | the answer has the target date, exactly the five libraries, max(0, end - start + 1) points each, point i labelled with chunk start + i |
| Prediction.ForecastPoint | lib/prediction.ts:190-227 | with history, slot i of a library is the per-slot rule with the library's delta |
| Prediction.NoHistoryMeansBlank | lib/prediction.ts:93-249 | before 2000-01-08 every slot has neither reading nor prediction |
| Prediction.OtherDayForecast | lib/prediction.ts:192-226 | on another day no reading is reported and each slot gets its clamped baseline, 0 without history |
| Prediction.LiveDeltaIsLastReading | lib/prediction.ts:212-214 | the delta is the current slot's last reading minus its baseline, or 0 without a reading in range |
| Prediction.TodayPoint | lib/prediction.ts:212-226 | today's slot shows its last reading, and a prediction only after the current slot without a reading: baseline plus delta clamped to 0..100 |
| Prediction.TodayForecast | lib/prediction.ts:190-227 | today's forecast follows that rule in every slot |
| Prediction.PredictionsInRange | lib/prediction.ts:222 | every prediction lies in 0..100 |
| DayData.DayLabels | src/actions/data.action.ts:50-54 | the day map starts with 144 labels |
| DayData.DayLabelsAreTheDaysChunks | src/actions/data.action.ts:50-69 | a row's label has an entry iff its chunk is within 0..143, so a chunk-144 row is dropped |
| DayData.StoreRows | src/actions/data.action.ts:24-30 | the day's rows are exactly the stored readings of that day |
| DayData.DayRows | src/actions/data.action.ts:24-34 | the day's rows as the query returns them: the same rows, ascending by chunk, rows of one chunk in store order |
| DayData.FirstScaleIsEarliestReading | src/actions/data.action.ts:24-41 | the first scale is the library of the day's earliest reading (smallest chunk, first in the store on a tie) |
| DayData.SortKeepsLastWrite | src/actions/data.action.ts:24-69 | ordering by chunk does not change which reading a slot shows under an index |
| DayData.ScalingOf | src/actions/data.action.ts:37-41 | one scale per distinct library |
| DayData.ScalingCoversNames | src/actions/data.action.ts:37-41 | each library of the rows has exactly one scale; scale names are "0", "1", …; labels and names are distinct |
| DayData.IndexMapOfDistinct | src/actions/data.action.ts:44-47 | with distinct labels the name-to-index map sends each scale's library to its index |
| DayData.Grouped | src/actions/data.action.ts:72-75 | 144 entries, in label order |
| DayData.EntryIsLastWrite | src/actions/data.action.ts:57-69 | entry i carries label i and under each index the rounded percentage of the last row of that slot and library; the key is absent without one |
| DayData.FetchDataForDay | src/actions/data.action.ts:15-86 | the day's scaling, and 91 entries, those of slots 48..138 |
| DayData.RowHasIndex | src/actions/data.action.ts:37-47 | every library of the day has a scale at its position and the index map sends it there |
| DayData.DaySeries | src/actions/data.action.ts:57-80 | slot k of the day's series is labelled with chunk 48 + k and holds the last write per index |
| DayData.FetchWithScaling | src/actions/data.action.ts:142-199 | keeps the given scaling and gives 144 entries |
| DayData.PreviousDates | src/actions/data.action.ts:121-126 | three earlier dates on the same weekday, newest first |
| DayData.PreviousDatesAreTheLastThreeWeeks | src/actions/data.action.ts:121-126 | a date is among them iff it is 7, 14 or 21 days earlier |
| DayData.ComputeAverage | src/actions/data.action.ts:201-237 | keeps the scaling and gives 91 entries |
| DayData.AverageItemValue | src/actions/data.action.ts:211-229 | an index has an average iff it belongs to the scaling and some data set holds a value; the average is the rounded mean of those values |
| DayData.AverageSlot | src/actions/data.action.ts:205-229 | slot k of the average: labelled 48 + k, value present as above and between the smallest and largest averaged value |
| DayData.GetAverageData | src/actions/data.action.ts:104-140 | the target day's scaling, taken from its rows in chunk order, with 91 averaged entries |
| DayData.AverageUsesThreeWeeks | src/actions/data.action.ts:104-140 | the average depends only on the target day and the days 7, 14 and 21 days before |
| GraphWindow.Queried | utils/db.ts:17-28 | a subsequence of the entries holding each entry of the library between the reset day start and the end of TODAY, both inclusive, as often as it is stored, and no other entry |
| GraphWindow.InWindow | utils/db.ts:34-41 | a subsequence of the queried entries holding each entry within five minutes of the slot's centre, both ends inclusive, as often as it occurs, and no other entry |
| GraphWindow.GetDataForGraph | utils/db.ts:32-55 | 144 points |
| GraphWindow.GraphLabels | utils/db.ts:51 | point i is labelled with slot i's "HH:MM" |
| GraphWindow.EntryCounts | utils/db.ts:17-41 | an entry counts for a slot iff it is of the library, in the queried range and within five minutes of the slot's centre |
| GraphWindow.BoundaryEntryCountsTwice | utils/db.ts:34-41 | an entry exactly five minutes after a centre counts for that slot and the next |
| GraphWindow.MeanOrZeroBounds | utils/db.ts:43-48 | a mean of percentages lies in 0..100; an empty window gives 0 |
| GraphWindow.GraphValuesInRange | utils/db.ts:32-55 | every point lies in 0..100 when the readings do |
| GraphWindow.FutureDayIsEmpty | utils/db.ts:14-28 | a day starting after today ends has only zero points |
| Home.Indices | src/components/HomePage.tsx:39-42 | the selection when there is one, else every library index in order |
| Home.QualifiesIff | src/components/HomePage.tsx:529-532 | an item qualifies iff its selected values sum to more than 65 times their number |
| Home.SixtyFiveIsNotEnough | src/components/HomePage.tsx:532 | values never above 65 do not qualify |
| Home.Totals | src/components/HomePage.tsx:518-527 | the running total and count are the sum and number of the selected values present |
| Home.WhenToGo | src/components/HomePage.tsx:514-539 | null iff no item qualifies; otherwise the label of the FIRST qualifying item |
| Home.LatestOccupancy | src/components/HomePage.tsx:541-550 | the value of the library in the last item that has one, or 0 when none has |
| GraphView.SelectScaling | src/hooks/useGraphData.tsx:19-36 | a subsequence of the scaling holding each scale whose index is selected as often as it occurs, and no other scale |
| GraphView.Restrict | src/hooks/useGraphData.tsx:19-36 | an item keeps its label and exactly its selected values, unchanged |
| GraphView.Select | src/hooks/useGraphData.tsx:19-36 | the selection keeps the number of items |
| GraphView.HourlyItems | src/hooks/useGraphData.tsx:42-46 | a subsequence of the items holding each item labelled "…00" as often as it occurs, and no other item |
| GraphView.LastDataIndex | src/hooks/useGraphData.tsx:47-62 | the index of the last item with data, -1 when none has |
| GraphView.FilterData | src/hooks/useGraphData.tsx:12-66 | the scaling is the selected one in every mode |
| GraphView.UnfilteredIsIdentity | src/hooks/useGraphData.tsx:12-41 | no selection and ten-minute mode return the data unchanged |
| GraphView.SelectionKeepsSelected | src/hooks/useGraphData.tsx:19-41 | with a selection: exactly the selected scales, same number of items, each with its label and exactly its selected values |
| GraphView.IndexNameSelected | src/hooks/useGraphData.tsx:19-36 | a scale named by index string n is selected iff n is |
| GraphView.HourlyKeepsFullHours | src/hooks/useGraphData.tsx:42-46 | hourly mode keeps exactly the full-hour items of the selection, each as often as it occurs, in order |
| GraphView.WindowShape | src/hooks/useGraphData.tsx:47-62 | a last-hours view is the contiguous run of min(back + 1, last + 1) items ending at the last item with data (position last), empty when no item has data |
| GraphView.LastSixHoursBound | src/hooks/useGraphData.tsx:47-53 | exactly min(36, last + 1) items, so at most 36 |
| GraphView.LastThreeHoursBound | src/hooks/useGraphData.tsx:54-62 | exactly min(18, last + 1) items, so at most 18 |
| GraphView.PrefixedInjective | src/hooks/useGraphData.tsx:86-96 | distinct keys get distinct "avg_" keys |
| GraphView.AvgItem | src/hooks/useGraphData.tsx:86-96 | the average item has the label and exactly the values of its source item, under "avg_" keys |
| GraphView.MergeData | src/hooks/useGraphData.tsx:69-106 | merging keeps the number of items |
| GraphView.MergeWithoutAverage | src/hooks/useGraphData.tsx:69-106 | without the average the data is returned unchanged |
| GraphView.MergedScaling | src/hooks/useGraphData.tsx:81-84 | the original scales, then one "avg_"/"(Avg)" scale per average scale |
| GraphView.SpreadKeepsOwn | src/hooks/useGraphData.tsx:98-102 | spreading the average keeps the item's own values |
| GraphView.SpreadAddsAverage | src/hooks/useGraphData.tsx:98-102 | spreading adds the average values under "avg_" keys and takes the average's label |
| GraphView.MergedItem | src/hooks/useGraphData.tsx:69-106 | item i keeps its values, gains average item i's values under "avg_" keys and its label; items beyond the average stay unchanged |
| GraphView.GraphData | src/hooks/useGraphData.tsx:12-106 | the merged series has as many items as the filtered data |
| CalendarPeriods.PeriodsForDay | components/calendar/utils/calendarHelpers.ts:5-8 | a subsequence of the periods holding each period whose start..end covers the date as often as it occurs, and no other period |
| CalendarPeriods.Day | components/calendar/utils/calendarHelpers.ts:152-156 | Sunday becomes 7; the other weekdays keep their number |
| CalendarPeriods.DayIsNeverZero | components/calendar/utils/calendarHelpers.ts:108-156 | `getDay` never gives 0, so the Sunday test never fires |
| CalendarPeriods.Radius | components/calendar/utils/calendarHelpers.ts:100-125 | a day whose neighbours both differ is "rounded-full" |
| CalendarPeriods.RadiusCases | components/calendar/utils/calendarHelpers.ts:100-125 | the corners in every neighbour case: inside a run only a Monday is rounded, and a run's first or last day gets its left or right corner |
| CalendarPeriods.CeilDays | components/calendar/utils/calendarHelpers.ts:54 | the smallest whole number of days covering the difference |
| CalendarPeriods.Upcoming | components/calendar/utils/calendarHelpers.ts:46 | a subsequence of the periods holding each period of the kind starting after now as often as it occurs, and no other period |
| CalendarPeriods.CountdownTo | components/calendar/utils/calendarHelpers.ts:46-60 | no countdown iff nothing of the kind is upcoming |
| CalendarPeriods.CountdownToEarliest | components/calendar/utils/calendarHelpers.ts:46-60 | the countdown names the earliest upcoming period (first on a tie) and counts the days to its start, rounded up |
| CalendarPeriods.ExamBeforeBreak | components/calendar/utils/calendarHelpers.ts:43-83 | an upcoming exam always wins over a break; no countdown iff neither is upcoming |
| CalendarHelpers.Priority | components/calendar/utils/calendarHelpers.ts:10-23 | exam 0, holiday 1, break 2, lecture 3, anything else 4 |
| CalendarHelpers.ReduceIsFirstMin | components/calendar/utils/calendarHelpers.ts:34 | the reduction picks the first period of smallest priority |
| CalendarHelpers.DayPeriodType | components/calendar/utils/calendarHelpers.ts:25-41 | null iff no period covers the day |
| CalendarHelpers.DayPeriodChoice | components/calendar/utils/calendarHelpers.ts:25-41 | the type is that of the first covering period of smallest priority; the flags say whether the day is its first or last |
| CalendarHelpers.ExamWins | components/calendar/utils/calendarHelpers.ts:10-41 | a day covered by an exam is an exam day |
| CalendarHelpers.Color | components/calendar/utils/calendarHelpers.ts:127-146 | lecture and info share blue; event is transparent |
| CalendarHelpers.DayColor | components/calendar/utils/calendarHelpers.ts:85-149 | "bg-transparent" iff no period covers the day |
| CalendarHelpers.IsolatedDayIsRound | components/calendar/utils/calendarHelpers.ts:122-148 | a day whose neighbours both differ in type is its colour plus " rounded-full" |
| CalendarLegacy.Priority | src/components/calendar/utils/calendarHelpers.ts:18-23 | holiday 0, break 1, exam 2, lecture 3 |
| CalendarLegacy.DayPeriodType | src/components/calendar/utils/calendarHelpers.ts:11-43 | null iff no period covers the day |
| CalendarLegacy.DayPeriodChoice | src/components/calendar/utils/calendarHelpers.ts:26-42 | the stable sort makes the type that of the first covering period of smallest priority, with its start and end flags |
| CalendarLegacy.HolidayWins | src/components/calendar/utils/calendarHelpers.ts:18-36 | here a holiday beats an exam on the same day |
| CalendarLegacy.Color | src/components/calendar/utils/calendarHelpers.ts:134-150 | a known type gets a colour; any other type is transparent |
| CalendarLegacy.DayColor | src/components/calendar/utils/calendarHelpers.ts:92-153 | "bg-transparent" iff no period covers the day |
| LibraryNames.DisplayNameCases | lib/libraryNames.ts:8-22 | each old name and its short form get the new display name; other names are kept; display names are never renamed again |
| LibraryNames.WithDisplayName | lib/libraryNames.ts:28-33 | only the name changes; a library that is not renamed is returned as it is |
| LibraryNames.WithDisplayNames | lib/libraryNames.ts:38-40 | the same libraries in the same order, each with its display name |
| Formatter.DaySuffix | src/utils/formatter.ts:29-41 | the suffix is one of "st", "nd", "rd", "th" |
| Formatter.NonPositiveDayIsTh | src/utils/formatter.ts:29-41 | with the truncating `%`, every day below 1 gets "th" |
| Formatter.DaySuffixOfMonthDay | src/utils/formatter.ts:29-41 | for days 1..31: "st" exactly for 1, 21, 31; "nd" for 2, 22; "rd" for 3, 23; "th" otherwise |
| Migration.Keys | script/mitgrate_v2/migrate.js:47-59 | one group key per entry, from its normalised name and its day |
| Migration.RecordFor | script/mitgrate_v2/migrate.js:77-86 | a record carries its group's name and date and its slot |
| Migration.Migrate | script/mitgrate_v2/migrate.js:62-88 | 144 records per group |
| Migration.ReadingIsLast | script/mitgrate_v2/migrate.js:58-75 | a slot's occupancy is the percentage of the group's last entry in that slot, 0 without one |
| Migration.MigratedRecordAt | script/mitgrate_v2/migrate.js:62-88 | record 144 g + c is slot c of group g with its last reading |
| Migration.SameGroupSlot | script/mitgrate_v2/migrate.js:62-88 | every record's group has a record for each slot, with the same library and date |
| Migration.GroupsAreKeys | script/mitgrate_v2/migrate.js:27-59 | the groups are exactly the entries' keys, each once, in order of first appearance |
| Migration.GroupIsDense | script/mitgrate_v2/migrate.js:62-88 | every group has a record for each of the 144 slots |
| Validation.MissingBelow | script/mitgrate_v2/validate.js:59-65 | exactly the slots below n without a reading, ascending |
| Validation.Checked | script/mitgrate_v2/validate.js:46-73 | one entry per raw group, with its missing slots |
| Validation.Incomplete | script/mitgrate_v2/validate.js:62-73 | a subsequence of the checked groups holding each group with a missing slot as often as it occurs, and no other group |
| Validation.MissingIff | script/mitgrate_v2/validate.js:59-65 | a slot is missing iff no entry of the group lies in it |
| Validation.CompleteIff | script/mitgrate_v2/validate.js:62-73 | a group is complete iff it has no missing slot |
| Validation.CompleteWhenSilent | script/mitgrate_v2/validate.js:75-77 | with no report line, every entry's group is complete |
| Validation.IncompleteWhenReported | script/mitgrate_v2/validate.js:62-77 | a report line means some entry's group is incomplete |
| Validation.SuccessIff | script/mitgrate_v2/validate.js:75-77 | the success message appears iff every entry's group is complete |
| Validation.ReportLines | script/mitgrate_v2/validate.js:62-73 | each report line names an incomplete group with its missing slots, ascending |
| Validation.SpellingsAreSeparateGroups | script/mitgrate_v2/validate.js:25-56 | two spellings of a library on one day are two groups here, though the migration merges them |
| Visualize.CalendarDay | script/mitgrate_v2/visualize.js:12-25 | a valid date only for a real calendar day |
| Visualize.ParseDateArg | script/mitgrate_v2/visualize.js:12-25 | the argument is rejected iff it has neither accepted shape |
| Visualize.ShapesAreDisjoint | script/mitgrate_v2/visualize.js:12-25 | no argument has both shapes |
| Visualize.ParseExamples | script/mitgrate_v2/visualize.js:12-25 | "25 01 2025" and "2025-01-25" are 25 January 2025; "25.01.2025" is rejected |
| Visualize.RecordsOn | script/mitgrate_v2/visualize.js:55 | a subsequence of the records holding each record of the day as often as it occurs, in file order, and no other record |
| Visualize.Find | script/mitgrate_v2/visualize.js:73 | none iff no record matches; otherwise the first match |
| Visualize.Rows | script/mitgrate_v2/visualize.js:69-77 | 144 rows, one cell per library |
| Visualize.BuildTable | script/mitgrate_v2/visualize.js:55-77 | no table (the script exits) iff the day has no records; otherwise 144 rows of one cell per column |
| Visualize.ColumnsAreNames | script/mitgrate_v2/visualize.js:63 | the columns are exactly the records' names, strictly ascending |
| Visualize.DayColumns | script/mitgrate_v2/visualize.js:55-63 | the columns are exactly the names present on the day, strictly ascending |
| Visualize.TableColumns | script/mitgrate_v2/visualize.js:55-63 | the table's columns are the names present on the day, each once, ascending |
| Visualize.TableRows | script/mitgrate_v2/visualize.js:69-77 | row c is slot c; its cell j is the first matching record's percentage, or 0 without one |
| Visualize.CellOfRecordWithoutPercentage | script/mitgrate_v2/visualize.js:73-74 | a found record without a percentage prints `undefined` |
| Visualize.ReadMigrated | script/mitgrate_v2/migrate.js:77-86 | the migrated records, seen without a `percentage` field |
| Visualize.PresentRecordWithoutPercentage | script/mitgrate_v2/visualize.js:73-74 | when no record has a percentage, every library and slot with a record prints `undefined` |
| Visualize.SlotRecord | script/mitgrate_v2/migrate.js:62-88 | a library with a migrated record on a day has one for every slot of that day |
| Visualize.MigratedCellsAreUndefined | script/mitgrate_v2/visualize.js:69-77 | on the migration's own output every cell of the table prints `undefined` |

## Left out

- Database access (Drizzle, Prisma, MongoDB) is not modelled: query results are inputs, and each WHERE clause is a filter over a sequence of stored rows.
- The HTTP fetch, the HTML extraction with cheerio and the `trim` of cell texts in the scraper are left out: the model starts from the extracted texts (`Scraper.Cell`).
- The `iat` and `ttl` values of a scrape are opaque inputs: their computation needs the clock.
- The wall clock, luxon, date-fns and the Europe/Berlin time zone, with its daylight-saving changes, are not modelled. The current time, the local hour and minute, the UTC offset, `parseISO` results and calendar fields are parameters. Dates are integer day numbers (day 0 = 2000-01-01 in `Prediction`) or year/month/day triples.
- IEEE-754 floating point and `Math.sqrt` are replaced by exact reals and integers. The outlier test compares squares instead of taking a root.
- Server.ChunkFractionIsExact: states the value in exact arithmetic. Floating-point rounding of `/ 60` and `/ 10` could move a time a hair from a half-slot boundary to the other chunk.
- Prediction.GetPrediction: the source throws when `endChunk < startChunk - 1`, because it fills an array of negative length. The model requires that away.
- Prediction.SeriesMembership: states membership only. The order and multiplicity of the pairs are stated by `Prediction.Series` through `Prediction.TrainingRows`.
- Prediction.GetPrediction: the source also throws when a live reading names a library outside ALL_LIBS. The model requires that away too (`LiveLibrariesKnown`).
- CalendarLegacy.DayPeriodType: the older variant's types are restricted to its four known kinds. Any other kind has no priority and makes the sort comparator NaN.
- CalendarHelpers.DayColor: for a day that some period covers, requires `-1 <= dayIndex <= |days|`. Outside that range the source reads a missing neighbouring day and throws. An uncovered day returns "bg-transparent" before any neighbour is read, so it has no index restriction.
- CalendarLegacy.DayColor: the same `dayIndex` restriction on covered days as `CalendarHelpers.DayColor`, for the same reason.
- DayData.DayRows: `orderBy: { chunk: 'asc' }` leaves the order of rows with the same chunk to the database. The model takes them in store order.
- GraphView.SelectScaling: scale names are read as decimal index strings, which is what `fetchDataForDay` produces. Other strings that JavaScript's `Number()` accepts, such as "-1", " 1", "1.0", "+1" or "0x1", are not read as numbers.
- Text.StrLess: strings are compared in code-point order, while `Array.prototype.sort()` and the string `<`, `<=` and `>=` of the source compare UTF-16 code units. The two orders differ only for characters outside the Basic Multilingual Plane.
- The `setHours(0,0,0,0)` in `getDataForGraph` mutates the caller's date. Only the reset start of the day is modelled, as `dayStart`.
- `getAviableEntities` and the other pure queries of the server actions return rows unchanged and are not modelled.
- The `!currentData` branch of `getAverageData` (`src/actions/data.action.ts` lines 107-109) is not modelled: `fetchDataForDay` either returns its result or throws, so the branch cannot be taken.
- The series label and stroke mapping for the chart (`useGraphData` lines 113-119) is presentation only and is left out.
- The refresh timers of `use-occupancy` are left out.
- Console output, `process.exit` codes and the JSON file reading and writing of the migration scripts are left out.
- The `formatDate` locale formatting of `formatter.ts` is left out; only `getDaySuffix` is modelled.
- The duplicate compiled copies under `dist/` and the older `tools/` scripts are not part of this model. They repeat the modelled logic.
