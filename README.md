# mystravastats analytics core in Dafny

mystravastats reads a Strava athlete's activities (from the Strava API cache or from FIT files) and
computes statistics, dashboards, charts and badges over them. This project models the analytics core
of its Go back end, together with the three Kotlin routines that share it, and proves what those
routines promise:

- **Activity provider filters** (`adapters/stravaapi/activityprovider.go`): selecting activities by
  requested type, with Ride and Commute kept apart; selecting by the year in `StartDateLocal`; dropping
  unknown type names; tallying kilometres per active day; grouping by year, with an empty list for each
  missing year between the first and the last.
- **Statistics** (`domain/statistics`):
  - the Eddington number of a list of activities and its "days with at least x km" histogram
    (`EddingtonStatistic`, a class whose methods update its fields);
  - the best effort over a distance (fastest), over a time (longest), over a time by power, and over a
    distance by elevation gain. Each is a two-pointer scan over a stream, specified by the windows it
    evaluates;
  - the longest streak of active days, with an in-place exchange sort;
  - the mean power over a range.
- **Dashboard and services** (`domain/services`):
  - the Eddington number recomputed from per-day kilometres;
  - cumulative distance and elevation walked day by day in key order;
  - per-year sums, averages and maxima;
  - day, month and year grouping;
  - sorted map keys;
  - the chart series flattened and sorted by key.
- **HTTP parameters** (`api/handlers.go`): the `activityType` list (split on `_`, deduplicated, sorted
  by type order) and the `year` parameter.
- **Badges** (`domain/badges`): distance badges and badge sets.
- **Formatting** (`domain/formathelper.go`): `formatSeconds`.
- **Kotlin**: `smooth` (ActivityHelper), `fixCoordinate` and `extractActivityType` (FITRepository).

Go semantics are written out where they matter:

- truncating integer `/` and `%` (`Numeric.Quot`, `Numeric.Rem`);
- `int(x)` of a float (`Numeric.Trunc`);
- string `<` as byte-wise lexicographic order (`Text.LexLess`);
- `%02d` and `%2d` (`Text.ZeroPad2`, `Text.SpacePad2`);
- Kotlin's 32-bit `Int` wrap-around (`FITRepository.Wrap32`).

Where a statement of the promised behaviour and the code disagree, the model follows the code.

- The power best effort is sometimes described as the mean over exactly `seconds` seconds. For the
  watts `[0, 0, 200, 200, 200, 0, 0]` at 1 Hz and 3 s, that mean is 200.
- The code's window runs until the time between its first and last samples reaches `seconds`. It
  includes both samples, so such a window holds four samples.
- The best window therefore averages 600 / 4 = 150.
- `BestEffortPower.AveragePowerIsFlooredMean` states the divisor as the window's sample count.

## Model

| member | source | states |
|---|---|---|
| Eddington.EddingtonStatistic.constructor | back-go/domain/statistics/eddingtonnumber.go:21-34 | A new statistic is named "Eddington number", keeps its activities, holds their Eddington number, and holds for every k the number of days with at least k km |
| Eddington.EddingtonStatistic.ProcessEddingtonNumber | back-go/domain/statistics/eddingtonnumber.go:48-101 | The result is the Eddington number of the per-day kilometre totals: the largest e with at least e days of at least e km, and no k > e with k such days. The histogram field is rebuilt from the same totals |
| Eddington.EddingtonNumberUnique | back-go/domain/statistics/eddingtonnumber.go:87-95 | The Eddington number of a set of day totals is unique, so the scan's answer is the only correct one |
| Eddington.EddingtonOfSorted | back-go/domain/statistics/eddingtonnumber.go:87-95 | Over totals sorted descending, the scan stops at the first day whose total is below its 1-based rank; the result e has its first e totals at least e and the rest below e + 1 |
| Eddington.EddingtonPrefixIsEddington | back-go/domain/statistics/eddingtonnumber.go:87-95 | That stopping point is the Eddington number: at least e totals reach e, and for every k > e fewer than k totals reach k |
| Eddington.EddingtonReached | back-go/domain/statistics/eddingtonnumber.go:87-95 | When the first e sorted totals are at least e, at least e days reach e km |
| Eddington.EddingtonNotExceeded | back-go/domain/statistics/eddingtonnumber.go:87-95 | When the totals after rank e are at most e, no k > e is reached on k days |
| Eddington.CountPermutation | back-go/domain/statistics/eddingtonnumber.go:80-84 | Sorting the totals (any permutation of them) leaves every "days with at least k km" count unchanged |
| Eddington.DailyDistancesOf | back-go/domain/statistics/eddingtonnumber.go:80-82 | Listing the map's values gives one total per day, and every count of days reaching k km agrees with the map |
| Eddington.DailyKmSpec | back-go/domain/statistics/eddingtonnumber.go:55-72 | The day map holds exactly the days on which some activity counts (present, positive distance, a parsable date, at least one whole km), each with the sum of its activities' truncated kilometres |
| Eddington.AddActivityStep | back-go/domain/statistics/eddingtonnumber.go:55-72 | One more activity updates the day map as the loop body does |
| Eddington.DailyKmSkip | back-go/domain/statistics/eddingtonnumber.go:56-71 | A nil activity, a non-positive distance, a date that does not parse or less than one whole km leaves the day map as it was |
| Eddington.DailyKmCounted | back-go/domain/statistics/eddingtonnumber.go:62-71 | An activity that counts adds its truncated kilometres to its day |
| Eddington.ParseActivityDateSpec | back-go/domain/statistics/eddingtonnumber.go:104-132 | A date string is rejected exactly when it is blank; otherwise the day returned is a non-empty prefix of the trimmed text |
| Eddington.DateLayoutAgreesWithFallback | back-go/domain/statistics/eddingtonnumber.go:111-121 | A text the "2006-01-02" layout accepts comes back unchanged, the same as the 'T' split fallback gives |
| Eddington.DateTimeLayoutAgreesWithFallback | back-go/domain/statistics/eddingtonnumber.go:111-125 | For a text the RFC 3339 layouts accept (date, then 'T'), the formatted date equals the text before 'T', so the fallback gives the same day |
| Eddington.EddingtonStatistic.BuildDaysWithAtLeastXKmArray | back-go/domain/statistics/eddingtonnumber.go:135-165 | Over totals sorted descending, entry k - 1 of the array is the number of days with at least k km, for every k from 1 to the largest total |
| Eddington.CountSplit | back-go/domain/statistics/eddingtonnumber.go:141-160 | The days reaching k split into the days whose total (clamped at the largest) is exactly k, plus those reaching k + 1: the suffix-sum step of the array |
| Eddington.LargestCounts | back-go/domain/statistics/eddingtonnumber.go:141-159 | The array's length is the largest total: at least one day reaches it and none exceeds it |
| Eddington.SortedTotalsOfDays | back-go/domain/statistics/eddingtonnumber.go:74-99 | Eddington number and histogram computed on the sorted list of map values are those of the map itself |
| Eddington.HistogramOfDays | back-go/domain/statistics/eddingtonnumber.go:135-165 | A histogram of the sorted totals is the histogram of the day map, empty when the map is |
| Eddington.SixDaysEddington | back-go/domain/statistics/eddingtonnumber_test.go:31-43 | Days of 10, 8, 7, 6, 5 and 3 km give Eddington number 5; a single 15 km day gives 1 |
| Eddington.SixDaysHistogram | back-go/domain/statistics/eddingtonnumber_test.go:31-43 | Those six days give the histogram [6, 6, 6, 5, 5, 4, 3, 2, 1, 1] |
| Eddington.SameDayExample | back-go/domain/statistics/eddingtonnumber_test.go:22-30 | Two activities of 10 km and 5 km on the same day make one day of 15 km |
| Dashboard.FetchEddingtonNumber | back-go/domain/services/dashboardService.go:15-48 | From the provider's per-day kilometres: the list's entry k - 1 counts the days with at least k km, up to the largest day; the number returned is the Eddington number of those days |
| Dashboard.EddingtonListIsHistogram | back-go/domain/services/dashboardService.go:15-48 | The dashboard's list equals the statistic's "days with at least x km" array for the same days, so both code paths agree |
| Dashboard.CountDays | back-go/domain/services/dashboardService.go:24-36 | For every j below the largest value, the count is the number of days with at least j + 1 km |
| Dashboard.LargestReached | back-go/domain/services/dashboardService.go:38-46 | The number returned is the largest d whose count reaches d: entry d - 1 is at least d and every later entry falls short |
| Dashboard.DaysAtLeastAntitone | back-go/domain/services/dashboardService.go:24-36 | Raising the threshold never increases the number of days reaching it |
| Dashboard.CumulativeDistance | back-go/domain/services/dashboardService.go:71-83 | Every day maps to the total distance in km of that day and of every day before it in key order |
| Dashboard.CumulativeElevation | back-go/domain/services/dashboardService.go:104-114 | Every day maps to the total elevation gain of that day and of every day before it in key order |
| Dashboard.RunningTotals | back-go/domain/services/dashboardService.go:71-83 | The shared walk: keys are the days of the input, each with its running total over sorted days |
| Dashboard.RunningTotalNonDecreasing | back-go/domain/services/dashboardService.go:71-83 | With non-negative amounts, a later day's cumulative value is never below an earlier day's |
| Dashboard.SumDistance | back-go/domain/services/dashboardService.go:179-185 | The sum of the activities' distances in km |
| Dashboard.AverageDistance | back-go/domain/services/dashboardService.go:187-192 | 0 with no activities; otherwise total km over the number of activities |
| Dashboard.AverageWithin | back-go/domain/services/dashboardService.go:187-192 | The average of values between 0 and m is between 0 and m |
| Dashboard.MaxOf | back-go/domain/services/dashboardService.go:194-203 | maxDistance, maxHeartRate, maxWatts: the result bounds every value, is never negative, and is 0 or one of the values |
| Dashboard.SumElevation | back-go/domain/services/dashboardService.go:205-211 | The sum of the truncated elevation gains |
| Dashboard.AverageElevation | back-go/domain/services/dashboardService.go:213-218 | 0 with no activities; otherwise the truncating quotient of the elevation sum by the count |
| Dashboard.AverageElevationWithin | back-go/domain/services/dashboardService.go:213-218 | With gains between 0 and m, the integer average is between 0 and m |
| Dashboard.MaxElevation | back-go/domain/services/dashboardService.go:220-229 | The largest truncated gain, or 0: it bounds every gain and is 0 or one of them |
| Dashboard.PositiveAverage | back-go/domain/services/dashboardService.go:231-244 | averageSpeed and averageWatts: the mean over only the activities whose value is positive, 0 when there is none |
| Dashboard.PositiveAverageWithin | back-go/domain/services/dashboardService.go:231-244 | That mean is positive and at most any bound on the values |
| Dashboard.AverageHeartRate | back-go/domain/services/dashboardService.go:256-269 | The truncated heart rates of the activities with a positive rate, summed and divided with truncation by their number; 0 when there is none |
| Dashboard.AverageHeartRateWithin | back-go/domain/services/dashboardService.go:256-269 | With rates at most m, the integer average is between 0 and m |
| Grouping.GroupBy | back-go/domain/services/dashboardService.go:170-177 | The keys are exactly the date prefixes that occur; each maps to the activities with that prefix, in input order |
| AveragePower.AveragePowerOf | back-go/domain/statistics/statistics.go:84-93 | 0 for no samples; otherwise the mean of the samples from idxStart to idxEnd inclusive |
| AveragePower.MeanBounds | back-go/domain/statistics/statistics.go:84-93 | The mean lies between any lower and upper bound of the samples |
| AveragePower.MeanConstant | back-go/domain/statistics/statistics.go:84-93 | A constant range averages to that constant |
| AveragePower.MeanWithZero | back-go/domain/statistics/statistics.go:84-93 | Adding a zero sample scales the mean by n / (n + 1) |
| BestEffortDistance.BestActivityEffortForDistance | back-go/domain/statistics/besteffortdistance.go:50-97 | For each start the scan evaluates the first end whose distance span reaches the target less 0.5 m. With a power stream it returns the first window with the least estimated time above 1 s over the complete scan. Without one it panics exactly when it accepts a window, after evaluating only the windows up to it |
| BestEffortDistance.PanicPersists | back-go/domain/statistics/besteffortdistance.go:59-94 | A panic in a scan in progress is also the outcome of the complete scan, which evaluates the same windows first |
| BestEffortDistance.PickStep | back-go/domain/statistics/besteffortdistance.go:62-94 | Each evaluated window replaces the best so far exactly when its estimate is below it and above 1 s; accepting a window without a power stream is the panic |
| BestEffortDistance.BestActivityEffort | back-go/domain/statistics/besteffortdistance.go:43-48 | No stream or no altitude gives no effort; otherwise the outcome is the scan's, a panic included |
| BestEffortDistance.BestActivityEffortUnique | back-go/domain/statistics/besteffortdistance.go:43-48 | The outcome for an activity, effort or panic, is determined by the activity and the distance |
| BestEffortDistance.FindBestActivityEffort | back-go/domain/statistics/besteffortdistance.go:32-41 | Keeps the first effort with the fewest seconds over all activities. When an activity's scan panics, every earlier activity returned and the search ends there |
| BestEffortDistance.FindBestIsFastest | back-go/domain/statistics/besteffortdistance.go:32-41 | When any activity has an effort, the one kept is at least as fast as each of them |
| BestEffortDistance.NewBestEffortDistanceStatistic | back-go/domain/statistics/besteffortdistance.go:17-30 | The statistic keeps its name, activities and distance, and holds the fastest effort over all activities; no statistic when an activity's scan panics |
| BestEffortDistance.AsWrittenNoPowerPanics | back-go/domain/statistics/besteffortdistance.go:76 | An activity with streams of 1 km in 200 s and no power stream panics against the 1 km target |
| BestEffortDistance.PickNilSafe | back-go/domain/statistics/besteffortdistance.go:74-90 | Corrected: without power data the average power is 0. Where the scan returns, the same effort; where it panics, an effort with average power 0 |
| BestEffortDistance.NilSafeIgnoresPower | back-go/domain/statistics/besteffortdistance.go:74-90 | With the corrected pick, power data changes only the average power, never which window is the best |
| BestEffortTime.BestDistanceForTime | back-go/domain/statistics/bestefforttime.go:68-112 | For each start, the scan evaluates the first end whose time span reaches the target; the effort kept is the first window with the longest distance scaled to the target time |
| BestEffortTime.PickIsLongest | back-go/domain/statistics/bestefforttime.go:68-112 | No effort exactly when no estimate is positive; otherwise the effort's distance bounds every estimate and beats every earlier one |
| BestEffortTime.TakeStep | back-go/domain/statistics/bestefforttime.go:86-108 | A window that reaches the target is recorded and kept when its estimate is larger; the scan state moves to the next start |
| BestEffortTime.BuildNonNullWatts | back-go/domain/statistics/bestefforttime.go:114-127 | No watts stream gives no samples; otherwise the integer watts as reals |
| BestEffortTime.BestDistanceEffort | back-go/domain/statistics/bestefforttime.go:61-66 | No stream or no altitude gives no effort; otherwise the scan's result over the activity's stream |
| BestEffortTime.BestDistanceEffortUnique | back-go/domain/statistics/bestefforttime.go:61-66 | The best distance effort of an activity is determined by the activity and the time |
| BestEffortTime.FindBestDistanceEffortForTime | back-go/domain/statistics/bestefforttime.go:50-59 | Computes every activity's best effort and keeps the first one with the longest distance |
| BestEffortTime.FindBestIsLongest | back-go/domain/statistics/bestefforttime.go:50-59 | The effort kept covers at least the distance of every activity's effort |
| BestEffortTime.NewBestEffortTimeStatistic | back-go/domain/statistics/bestefforttime.go:15-31 | The statistic keeps its name, activities and time, and holds the longest effort over all activities |
| BestEffortPower.BestPowerForTimeForTime | back-go/domain/statistics/besteffortpower.go:62-125 | No watts stream gives no effort; otherwise the scan evaluates, for each start, the first end whose time span reaches the target, and keeps the first window with the largest positive watt sum |
| BestEffortPower.PickIsStrongest | back-go/domain/statistics/besteffortpower.go:87-122 | No effort exactly when no window has a positive sum; otherwise the effort's window has the largest sum and beats every earlier window |
| BestEffortPower.ZeroWattsNoEffort | back-go/domain/statistics/besteffortpower.go:87-122 | A stream of zero watts yields no power effort |
| BestEffortPower.AveragePowerIsFlooredMean | back-go/domain/statistics/besteffortpower.go:102 | The reported power is the window's watt sum divided with truncation by its sample count (both ends included), so it is the mean rounded down |
| BestEffortPower.CopyNonNullWatts | back-go/domain/statistics/besteffortpower.go:69-76 | The copied watts are the stream's watts |
| BestEffortPower.BestPowerForTime | back-go/domain/statistics/besteffortpower.go:55-60 | No stream or no altitude gives no effort; otherwise the scan's result over the activity's stream |
| BestEffortPower.BestPowerEffortUnique | back-go/domain/statistics/besteffortpower.go:55-60 | The best power effort of an activity is determined by the activity and the time |
| BestEffortPower.CalculateBestPowerForTime | back-go/domain/statistics/besteffortpower.go:44-53 | Computes every activity's power effort and keeps the first one with the longest distance (the source's comparison, not power) |
| BestEffortPower.NewBestEffortPowerStatistic | back-go/domain/statistics/besteffortpower.go:17-35 | For a time above 10 s, the statistic keeps its name, activities and time and holds that effort |
| BestElevationDistance.BestElevationEffortForDistance | back-go/domain/statistics/bestelevationdistance.go:54-98 | For each start, the scan evaluates the first end whose distance span reaches the target less 0.5 m, and keeps the first window with the largest altitude gain |
| BestElevationDistance.PickIsSteepest | back-go/domain/statistics/bestelevationdistance.go:54-98 | An effort exists exactly when some window was evaluated. Its gain and seconds are its window's, and that gain bounds every window's gain and beats every earlier one |
| BestElevationDistance.NoEffortIffTooShort | back-go/domain/statistics/bestelevationdistance.go:54-98 | Over a non-decreasing distance stream, there is no effort exactly when the whole stream is shorter than the target less 0.5 m |
| BestElevationDistance.NewEffort | back-go/domain/statistics/bestelevationdistance.go:75-91 | The effort built for a window has the target distance, the window's seconds and the window's altitude gain |
| BestElevationDistance.BestElevationEffort | back-go/domain/statistics/bestelevationdistance.go:47-52 | No stream or no altitude gives no effort; otherwise the scan's result |
| BestElevationDistance.BestElevationEffortUnique | back-go/domain/statistics/bestelevationdistance.go:47-52 | The best elevation effort of an activity is determined by the activity and the distance |
| BestElevationDistance.FindBestElevationEffort | back-go/domain/statistics/bestelevationdistance.go:36-45 | Computes every activity's effort and keeps the first one with the largest gain |
| BestElevationDistance.FindBestIsSteepest | back-go/domain/statistics/bestelevationdistance.go:36-45 | The effort kept gains at least as much as every activity's effort |
| BestElevationDistance.NewBestElevationDistanceStatistic | back-go/domain/statistics/bestelevationdistance.go:21-34 | The statistic keeps its name, activities and distance, and holds the steepest effort |
| Windows.ScanCoverage | back-go/domain/statistics/besteffortdistance.go:62-94 | Over a non-decreasing axis, the k-th evaluated window ends at the first index whose span from k reaches the threshold. No start after the last window reaches it at all |
| Windows.ScanEmpty | back-go/domain/statistics/bestelevationdistance.go:67-95 | The scan evaluates no window exactly when the whole axis spans less than the threshold |
| Windows.ScanUnique | back-go/domain/statistics/besteffortdistance.go:62-94 | The sequence of evaluated windows is determined by the axis and the threshold |
| Windows.ScanExtendsPrefix | back-go/domain/statistics/besteffortdistance.go:62-94 | The windows a scan in progress has evaluated are the first windows of the complete scan |
| Windows.ScanWidthGrows | back-go/domain/statistics/besteffortpower.go:87-122 | In the power scan each window is at least as wide as the previous one |
| Selection.FirstBestIndexSpec | back-go/domain/statistics/besteffortdistance.go:32-41 | The fold over per-activity efforts finds nothing only when every activity has none; otherwise its pick bounds every effort and beats every earlier one |
| MaxStreak.NewMaxStreakStatistic | back-go/domain/statistics/maxstreakstatistic.go:14-65 | No activities give 0. Otherwise the activities are re-sorted newest first (same multiset), and the result is the longest closed run of active days over the `last - first` slots from the oldest day |
| MaxStreak.SortNewestFirst | back-go/domain/statistics/maxstreakstatistic.go:26-32 | The array is a permutation of its old contents, sorted by `StartDateLocal`, newest first |
| MaxStreak.BringNewestForward | back-go/domain/statistics/maxstreakstatistic.go:27-31 | One pass of the outer loop puts the newest remaining activity at position i, keeping the prefix sorted and the multiset unchanged |
| MaxStreak.Exchange | back-go/domain/statistics/maxstreakstatistic.go:28-30 | The swap exchanges exactly two positions and keeps the sorted prefix |
| MaxStreak.CollectOffsets | back-go/domain/statistics/maxstreakstatistic.go:34-42 | The set holds each activity's day number less the oldest day's |
| MaxStreak.ActiveSlotMeaning | back-go/domain/statistics/maxstreakstatistic.go:38-48 | Slot i is active exactly when some activity falls on day first + i |
| MaxStreak.FillSlots | back-go/domain/statistics/maxstreakstatistic.go:44-48 | The new array marks each of the given days active exactly when an activity falls on it |
| MaxStreak.LongestClosedRun | back-go/domain/statistics/maxstreakstatistic.go:50-60 | The result is the longest run of active slots that is followed by an inactive slot; a run reaching the end is not counted |
| MaxStreak.TrailingRunIgnored | back-go/domain/statistics/maxstreakstatistic.go:44-60 | Three consecutive days leave two active slots with no closed run (result 0), though their real streak is 3 |
| MaxStreak.MaxStreakCorrected | back-go/domain/statistics/maxstreakstatistic.go:44-60 | With a slot for the newest day and the final run counted, the result is the longest run of consecutive active days |
| MaxStreak.LongestRun | back-go/domain/statistics/maxstreakstatistic.go:50-60 | The result is the longest run of active slots, the final one included |
| MaxStreak.OneDayIsStreakOfOne | back-go/domain/statistics/maxstreakstatistic.go:44-60 | Activities on one single day are a streak of 1 |
| Calendar.ParseFormatDate | back-go/domain/statistics/maxstreakstatistic.go:34-41 | Formatting a valid date as "2006-01-02" and parsing it back gives the date |
| Calendar.FormatParseDate | back-go/domain/statistics/maxstreakstatistic.go:34-41 | A text that parses as a date is the formatted form of that date |
| Calendar.EpochDayNext | back-go/domain/statistics/maxstreakstatistic.go:36-44 | The day after a date has the next day number, so day-number differences count days |
| ActivityProvider.FilterActivitiesByType | back-go/adapters/stravaapi/activityprovider.go:336-361 | The activities selected by some requested type, in input order |
| ActivityProvider.AnySelects | back-go/adapters/stravaapi/activityprovider.go:343-357 | True exactly when some requested type selects the activity |
| ActivityProvider.NoTypesNoActivities | back-go/adapters/stravaapi/activityprovider.go:336-361 | Requesting no type keeps no activity |
| ActivityProvider.RideOrCommute | back-go/adapters/stravaapi/activityprovider.go:344-356 | A Ride is selected by Ride exactly when the Commute type would not select it: commutes are counted apart |
| ActivityProvider.CommutesAreRides | back-go/adapters/stravaapi/activityprovider.go:345-351 | Whatever Commute selects is a ride flagged as a commute |
| ActivityProvider.SelectedOnce | back-go/adapters/stravaapi/activityprovider.go:336-361 | Each selected activity is kept as many times as it occurs, and an unselected one never |
| ActivityProvider.FilterActivitiesByYear | back-go/adapters/stravaapi/activityprovider.go:363-376 | No year keeps every activity; a year keeps, in order, those whose first four date characters read as that year (an unreadable prefix reads as 0, as `strconv.Atoi`'s error is dropped) |
| ActivityProvider.YearOfDigits | back-go/adapters/stravaapi/activityprovider.go:363-376 | For a four-digit prefix, the year compared is its decimal value |
| ActivityProvider.TallyActiveDays | back-go/adapters/stravaapi/activityprovider.go:258-269 | The keys are the activities' days and each holds the sum of their truncated kilometres |
| ActivityProvider.ActiveDaysByType | back-go/adapters/stravaapi/activityprovider.go:258-269 | The same tally over the type-filtered activities |
| ActivityProvider.ActiveDaysByYearAndType | back-go/adapters/stravaapi/activityprovider.go:271-283 | The same tally after the year filter and the type filter |
| ActivityProvider.GroupActivitiesByYear | back-go/adapters/stravaapi/activityprovider.go:299-317 | The keys are the years that occur plus, when any occur, every year between the least and the greatest key; each key maps to its activities in order, a filled year to none |
| ActivityProvider.FillBetweenKeys | back-go/adapters/stravaapi/activityprovider.go:306-315 | Adding the missing years keeps every existing bucket and adds exactly the years from the least to the greatest key |
| ActivityProvider.YearsWithinRange | back-go/adapters/stravaapi/activityprovider.go:306-315 | With digit year keys, every activity's year lies between the least and the greatest key |
| ActivityProvider.EveryYearBetween | back-go/adapters/stravaapi/activityprovider.go:306-315 | Every year between two activities' years has a key after filling |
| ActivityProvider.FilledYearIsEmpty | back-go/adapters/stravaapi/activityprovider.go:309-313 | A key added by filling maps to an empty list |
| ActivityProvider.MinKey | back-go/adapters/stravaapi/activityprovider.go:378-386 | An empty map gives ""; otherwise, when "" is not a key, the least key in string order |
| ActivityProvider.MaxKey | back-go/adapters/stravaapi/activityprovider.go:388-396 | An empty map gives ""; otherwise, when "" is not a key, the greatest key in string order |
| ActivityProvider.KeyOrderEnds | back-go/adapters/stravaapi/activityprovider.go:378-396 | The first and last sorted keys bound every key |
| Text.DigitsLexOrder | back-go/adapters/stravaapi/activityprovider.go:306-308 | For four-digit year keys, string order is numeric order, so the least and greatest keys are the first and last years |
| ActivityProvider.FilterByActivityTypes | back-go/adapters/stravaapi/activityprovider.go:323-334 | Keeps, in order, the activities whose type name is one of the known types |
| ActivityProvider.IsListedType | back-go/adapters/stravaapi/activityprovider.go:326-331 | True exactly when the name is a known type name |
| ActivityProvider.KnownTypesKept | back-go/adapters/stravaapi/activityprovider.go:323-334 | Each activity of a known type is kept as many times as it occurs, others never |
| Handlers.GetActivityTypeParam | back-go/api/handlers.go:314-343 | An empty parameter is an error. Otherwise it is an error exactly when some `_`-separated part is empty or unknown, and on success the result lists each named type once, in ascending type order |
| Handlers.CollectTypes | back-go/api/handlers.go:324-333 | The set is exactly the types named by the parts; an empty or unknown part is an error |
| Handlers.ListTypes | back-go/api/handlers.go:335-338 | The list holds each chosen type exactly once |
| Handlers.SortedTypesAscending | back-go/api/handlers.go:340 | Sorting the distinct types by their order yields them strictly ascending, with the same types |
| Handlers.OrdinalLeTotalOrder | back-go/api/handlers.go:340 | Ordering types by their declaration order is a total order |
| Handlers.AscendingUnique | back-go/api/handlers.go:335-340 | Two strictly ascending lists of the same types are equal, so the result is independent of map order |
| Handlers.SingleTypeParam | back-go/api/handlers.go:314-343 | A single type name is accepted and names exactly that type |
| Handlers.TypeParamRoundTrip | back-go/api/handlers.go:321 | Joining type names with `_` and splitting again gives the names back, all known and naming exactly those types |
| Text.SplitJoin | back-go/api/handlers.go:321 | Splitting the join of separator-free parts gives the parts back |
| Text.JoinSplit | back-go/api/handlers.go:321 | Joining the split parts gives the text back |
| Handlers.GetYearParam | back-go/api/handlers.go:345-355 | An empty parameter means no year; otherwise an error exactly when the text is not a 64-bit decimal integer, its message `invalid year: "<text>"`, else that integer |
| Handlers.YearParamRoundTrip | back-go/api/handlers.go:345-355 | The decimal text of any 64-bit integer reads back as that year |
| Text.AtoiIntToString | back-go/api/handlers.go:350 | The decimal text of a 64-bit integer parses back to it |
| Strava.LookupTypeName | back-go/domain/business/activitytype.go:5-16 | Every type's name looks up to that type |
| Strava.LookupType | back-go/domain/business/activitytype.go:5-16 | A name that looks up to a type is that type's name |
| Strava.Ordinal | back-go/domain/business/activitytype.go:18-29 | The type's position in the declaration order |
| Strava.TypeName | back-go/domain/business/activitytype.go:31-33 | A type's name is non-empty and never holds `_`, so it survives the `_`-joined parameter |
| Strava.TypeOrZero | back-go/domain/business/activitytype.go:5-16 | A known name gives its type; an unknown one gives the zero value, Run |
| FormatHelper.FormatSeconds | back-go/domain/formathelper.go:20-37 | The text is at least three characters; its shape per range is the subject of the lemmas below |
| FormatHelper.ClockOf | back-go/domain/formathelper.go:21-23 | Hours, minutes and seconds add back up to the input; for a non-negative input minutes and seconds are below 60 |
| FormatHelper.FormatUnderMinute | back-go/domain/formathelper.go:25-27 | Under a minute: two-digit seconds then "s" |
| FormatHelper.FormatUnderHour | back-go/domain/formathelper.go:29 | Under an hour: "MMm SSs" |
| FormatHelper.FormatWholeHours | back-go/domain/formathelper.go:32-33 | A whole number of hours: the hour count space-padded, then "h" |
| FormatHelper.FormatAllFields | back-go/domain/formathelper.go:36 | An hour or more, not whole: "HHh MMm SSs" |
| FormatHelper.FormatSecondsReadsBack | back-go/domain/formathelper.go:20-37 | Reading the unit fields of the text back gives the number of seconds |
| FormatHelper.FormatSecondsInjective | back-go/domain/formathelper.go:20-37 | Two different non-negative durations never format alike |
| Service.GroupActivitiesByDay | back-go/domain/services/service.go:35-61 | The keys are the "MM-DD" days that occur plus every day of the year (366 slots); each key maps to its activities in order, a day without activity to none |
| Service.YearDayKeysCoverYear | back-go/domain/services/service.go:43-50 | Every valid day of the year has its "MM-DD" key among the filled days |
| Calendar.NthDayCoversYear | back-go/domain/services/service.go:43-50 | Stepping day by day from 1 January reaches every date of the year at its day number |
| Service.RebuildInKeyOrder | back-go/domain/services/service.go:52-58 | Copying the map over its sorted keys gives the same map |
| Service.SortedKeys | back-go/domain/services/service.go:63-71 | The keys of the map, each once, strictly ascending in string order |
| Service.MapKeys | back-go/domain/services/service.go:64-67 | The listing holds every key of the map exactly once |
| Service.KeyOrderUnique | back-go/domain/services/service.go:63-71 | There is one strictly ascending listing of a key set, so the result does not depend on map order |
| Sorting.LexLeTotalOrder | back-go/domain/services/service.go:68 | Go's string order is a total order |
| Sorting.SortByIsTheSort | back-go/domain/services/service.go:68 | Any sorted permutation under a total order is the sort of the input |
| Sorting.DescendingTotalOrder | back-go/domain/statistics/eddingtonnumber.go:84 | The descending integer order used for the day totals is a total order |
| Charts.GroupActivitiesByMonth | back-go/domain/services/chartsService.go:135-151 | The keys are the months that occur plus "01" to "12"; each key maps to its activities in order |
| Charts.MonthKeysAreMonths | back-go/domain/services/chartsService.go:143-148 | Each filled key is a two-digit month from 1 to 12 |
| Charts.MonthKeysCount | back-go/domain/services/chartsService.go:143-148 | Twelve distinct keys are filled |
| Charts.SortResultByKey | back-go/domain/services/chartsService.go:173-193 | The flattened series: for each key in ascending order (as often as the key occurs), every (key, value) pair from the input maps that hold it |
| Charts.SortedResultHoldsInput | back-go/domain/services/chartsService.go:173-193 | Every output pair comes from some input map, and every input pair appears in the output |
| Charts.SortedResultAscending | back-go/domain/services/chartsService.go:173-193 | The output keys are in ascending order |
| Charts.PreallocatedMapsIgnored | back-go/domain/services/chartsService.go:38-46 | The empty maps preallocated in the result add nothing to the sorted series |
| Charts.ChartOfFigures | back-go/domain/services/chartsService.go:173-193 | With one map per period, the sorted series is each period's figure in ascending period order |
| Charts.DistanceByPeriod | back-go/domain/services/chartsService.go:13-29 | For every period in ascending order, the total kilometres of its activities |
| Charts.ElevationByPeriod | back-go/domain/services/chartsService.go:32-56 | For every period in ascending order, the total elevation gain, whatever empty maps were preallocated |
| Charts.AverageSpeedByPeriod | back-go/domain/services/chartsService.go:58-87 | For every period in ascending order, the mean average speed of its activities, 0 for a period without any |
| Charts.PeriodChartPoints | back-go/domain/services/chartsService.go:173-193 | The series has one point per period, and each period appears with its figure |
| Badges.Check | back-go/domain/badges/distance.go:12-20 | The activities at least as long as the badge, in order; completed exactly when there is one |
| Badges.CheckedAreLongEnough | back-go/domain/badges/distance.go:12-20 | An activity is checked exactly when it reaches the badge distance, as often as it occurs |
| Badges.CompletedIffSomeActivity | back-go/domain/badges/distance.go:12-20 | A badge is completed exactly when some activity reaches its distance |
| Badges.HigherThresholdFewerActivities | back-go/domain/badges/distance.go:12-20 | A longer badge checks only activities a shorter one checks, and completing it completes the shorter |
| Badges.CheckSet | back-go/domain/badges/badgeset.go:20-31 | One result per badge, in order, each the badge's check |
| Badges.PlusOutcomes | back-go/domain/badges/badgeset.go:33-38 | The combined set keeps the first name, and its results are the first set's followed by the second's |
| Badges.GradedLevelsNested | back-go/domain/badges/badgeset.go:20-31 | In a set with rising distances, completing a level completes every lower level |
| Badges.RideSetLevels | back-go/domain/badges/distance.go:27-54 | The ride set has six levels, 50 km apart, from 50 km to 300 km |
| Badges.DistanceSetsGraded | back-go/domain/badges/distance.go:26-105 | The ride, run and hike sets have strictly rising distances |
| ActivityHelper.Smooth | back-kotlin/src/main/kotlin/me/nicolas/stravastats/domain/services/ActivityHelper.kt:25-38 | As written: the first and last `size` values are copied; each other value is the sum of `values[i-size..i+size)` divided by `2*size+1` |
| ActivityHelper.AsWrittenMovesConstant | back-kotlin/src/main/kotlin/me/nicolas/stravastats/domain/services/ActivityHelper.kt:31 | As written, a constant non-zero stream does not come out unchanged |
| ActivityHelper.SmoothDefault | back-kotlin/src/main/kotlin/me/nicolas/stravastats/domain/services/ActivityHelper.kt:25 | `smooth()` without an argument smooths with a window of 5 values on each side |
| ActivityHelper.DefaultWindowScalesConstant | back-kotlin/src/main/kotlin/me/nicolas/stravastats/domain/services/ActivityHelper.kt:25-31 | With the default window, an interior point of a constant stream comes out at 10/11 of the constant |
| ActivityHelper.AsWrittenExample | back-kotlin/src/main/kotlin/me/nicolas/stravastats/domain/services/ActivityHelper.kt:31 | [3.0, 3.0, 3.0] with size 1 smooths its middle to 2.0 |
| ActivityHelper.SmoothCorrected | back-kotlin/src/main/kotlin/me/nicolas/stravastats/domain/services/ActivityHelper.kt:25-38 | Corrected: each middle value is the mean of the `2*size+1` values centred on it |
| ActivityHelper.CenteredWithinBounds | back-kotlin/src/main/kotlin/me/nicolas/stravastats/domain/services/ActivityHelper.kt:31 | The centred mean stays between any bounds of the input |
| ActivityHelper.CenteredKeepsConstant | back-kotlin/src/main/kotlin/me/nicolas/stravastats/domain/services/ActivityHelper.kt:31 | A constant stream comes out unchanged |
| FITRepository.FixCoordinate | back-kotlin/src/main/kotlin/me/nicolas/stravastats/adapters/localrepositories/fit/FITRepository.kt:362-394 | As written: it throws exactly when the stream ends in zeros after a recorded value. Otherwise each zero is replaced: a leading zero by the first recorded value, an inner one by the 32-bit average of its two neighbours |
| FITRepository.FillLeadingGap | back-kotlin/src/main/kotlin/me/nicolas/stravastats/adapters/localrepositories/fit/FITRepository.kt:366-376 | The leading zeros take the first non-zero value (0 when there is none), and the rest is untouched |
| FITRepository.FillGapAsWritten | back-kotlin/src/main/kotlin/me/nicolas/stravastats/adapters/localrepositories/fit/FITRepository.kt:379-393 | An inner gap is filled up to the next recorded value; running off the end means the stream ends in zeros |
| FITRepository.FirstNonZeroFrom | back-kotlin/src/main/kotlin/me/nicolas/stravastats/adapters/localrepositories/fit/FITRepository.kt:382-386 | The index of the first non-zero value from a position, or the length when there is none |
| FITRepository.FixCoordinateCorrected | back-kotlin/src/main/kotlin/me/nicolas/stravastats/adapters/localrepositories/fit/FITRepository.kt:362-394 | Corrected: never throws. Each zero takes the first value when leading, the exact midpoint of its neighbours when inner, and the last value when trailing |
| FITRepository.LeadingGapTakesFirstValue | back-kotlin/src/main/kotlin/me/nicolas/stravastats/adapters/localrepositories/fit/FITRepository.kt:366-376 | Every zero before the first recorded value becomes that value |
| FITRepository.InnerGapTakesAverage | back-kotlin/src/main/kotlin/me/nicolas/stravastats/adapters/localrepositories/fit/FITRepository.kt:379-393 | Every zero between two recorded values becomes the average of the two |
| FITRepository.RecordedValuesKept | back-kotlin/src/main/kotlin/me/nicolas/stravastats/adapters/localrepositories/fit/FITRepository.kt:362-394 | Recorded (non-zero) values are never changed; an all-zero stream stays zero |
| FITRepository.CorrectedWithinRecorded | back-kotlin/src/main/kotlin/me/nicolas/stravastats/adapters/localrepositories/fit/FITRepository.kt:379-393 | The corrected fill stays within the range of the recorded values |
| FITRepository.MidpointBetween | back-kotlin/src/main/kotlin/me/nicolas/stravastats/adapters/localrepositories/fit/FITRepository.kt:388 | The corrected average lies between its two operands |
| FITRepository.AsWrittenOverflows | back-kotlin/src/main/kotlin/me/nicolas/stravastats/adapters/localrepositories/fit/FITRepository.kt:388 | [2147483000, 0, 2147483600] fills its gap with -348 as written; the corrected midpoint is 2147483300 |
| FITRepository.AsWrittenTrailingGapThrows | back-kotlin/src/main/kotlin/me/nicolas/stravastats/adapters/localrepositories/fit/FITRepository.kt:387-390 | A recorded value followed by a final zero is a trailing gap, on which the inner loop indexes past the end |
| FITRepository.Wrap32 | back-kotlin/src/main/kotlin/me/nicolas/stravastats/adapters/localrepositories/fit/FITRepository.kt:388 | A 32-bit Int result: in range and congruent to the exact value modulo 2^32 |
| FITRepository.ExtractActivityType | back-kotlin/src/main/kotlin/me/nicolas/stravastats/adapters/localrepositories/fit/FITRepository.kt:318-327 | "Unknown" exactly for the sports outside the five mapped |
| FITRepository.ExtractedNamesKnown | back-kotlin/src/main/kotlin/me/nicolas/stravastats/adapters/localrepositories/fit/FITRepository.kt:318-327 | The name is a known type name exactly for a mapped sport, and different mapped sports get different names |

## Left out

- Activity loading is not modelled: reading the Strava cache and FIT files, the HTTP calls, the logging and the concurrent loading are I/O and concurrency. The provider's activity list is a parameter.
- The dashboard and chart entry points that only read the provider and the clock are not modelled. These are `FetchDashboardData`, `GetCumulativeDistancePerYear`, `GetCumulativeElevationPerYear` and the year/period/type plumbing of the `FetchCharts*` functions. The computations they call are modelled.
- `GetActivitiesByActivityTypeAndYear` and `GetActivitiesByActivityTypeGroupByYear` are not separate members. They are compositions of `FilterActivitiesByYear`, `FilterActivitiesByType` and `GroupActivitiesByYear` over the provider's list.
- `getPeriodParam` is not modelled: it returns the parameter unchanged.
- `maxSpeed` is not modelled: it calls `FindBestActivityEffort` with 200 m and converts units with floats.
- The cadence chart, `groupActivitiesByWeek` (ISO weeks) and the `activitiesByPeriod` dispatch are not modelled.
- The elevation, moving-time and famous-climb badges are not modelled: the famous-climb badge needs geographic distance in floating point.
- The `Label` text each best-effort scanner writes into an effort (besteffortdistance.go:84, bestefforttime.go:99, besteffortpower.go:110, bestelevationdistance.go:85) is not a field of `Strava.Effort`. The `Value()`/`String()` formatting of statistics is not modelled either, nor are `formatDate`, `formatSecondsFloat`, `formatSpeed` or the `time.Duration` form of `formatSeconds` in statistics.go. They need floating-point printing or time-zone formatting.
- `extractLatLng`, `extractDateLocal` and `extractDate` of the FIT repository are not modelled: they are semicircle and time-zone conversions.
- `getStravaCachePath` is not modelled: it reads the environment.
- Kotlin's `ActivityType` enum is represented by the Go type list: both hold the same names for the types modelled.
- Floating-point values (distances, speeds, watts as `float64`) are exact reals. Rounding, NaN and infinities are not modelled. `int(x)` of a float truncates toward zero.
- Go map iteration order is not modelled. Every operation whose result could depend on it is proved independent of it (sorted keys, sets), or takes the order as a parameter.
- Runtime panics in the source become preconditions:
  - `NewBestEffortDistanceStatistic` and `NewBestElevationDistanceStatistic` require a distance above 100 m.
  - `NewBestEffortPowerStatistic` requires a time above 10 s.
  - Slicing `StartDateLocal[:n]` requires the dates to be long enough (`LongEnough`).
  - `fixCoordinate` needs a non-empty list, because `first()` throws on an empty one.
  - `smooth` needs `size` at most the list length.
  - `smooth` throws in `subList` on a negative `size`; the model types `size` as a natural number.
  - What each best-effort scanner needs of an activity's streams is listed member by member below.
- `Handlers.GetYearParam`: the error text quotes the parameter as `%q` does, but `%q`'s escaping of quotes, backslashes and non-printable characters is not modelled.
- `BestEffortTime.BestDistanceForTime` and the members above it require `seconds > 0`. With `seconds <= 0` the code divides by a zero time span, giving a floating-point infinity or NaN that the model's reals do not have. Every caller passes at least 1800 s.
- `BestEffortDistance.WattsMean`: the `average` helper that computes an effort's average power is not part of this model; it is taken to be the arithmetic mean of the slice.
- `BestEffortDistance.BestActivityEffort` requires the altitude stream of an activity that has streams: `len(activity.Stream.Altitude.Data)` at besteffortdistance.go:44 dereferences it. It also requires a time stream, and a power stream when present, at least as long as the distance stream: lines 64 and 76 index them without checks. A missing power stream is modelled; it panics at line 76 (see Findings).
- `BestEffortTime.BestDistanceEffort` requires time and altitude streams at least as long as the distance stream: bestefforttime.go:81-82 index them without checks. It also requires a present, non-empty power stream to be at least as long: `averagePower` indexes it. A nil altitude stream returns nil at line 62.
- `BestEffortPower.BestPowerForTime` requires the altitude stream of an activity that has streams: `len(a.Stream.Altitude.Data)` at besteffortpower.go:56 dereferences it. It also requires a time stream at least as long as the distance stream, and altitude and power streams that are, when non-empty, at least as long: lines 91, 94 and 95 index them without checks.
- `BestElevationDistance.BestElevationEffort` requires the altitude stream of an activity that has streams: `len(activity.Stream.Altitude.Data)` at bestelevationdistance.go:48 dereferences it. It also requires time and altitude streams, and a present, non-empty power stream, at least as long as the distance stream: lines 69-70 and `averagePower` index them without checks.
- `BestEffortTime.BuildNonNullWatts`: bestefforttime.go:122 assigns an `int` sample of the power stream into a `[]float64`, which Go does not accept as written. The model reads it as a conversion to a float.
- `BestElevationDistance.NewEffort`: bestelevationdistance.go:77 passes the `*strava.PowerStream` itself to `averagePower`, which takes a `[]float64`, which Go does not accept as written. The model reads it as `averagePower(buildNonNullWatts(watts), idxStart, idxEnd)`, the conversion bestefforttime.go makes.
- `FixCoordinate`: the contents of the array after the exception on a trailing gap are not stated, only that it throws.
- `BestEffortDistance.BestActivityEffortForDistance`, `BestEffortTime.BestDistanceForTime`, `BestEffortPower.BestPowerForTimeForTime` and `BestElevationDistance.BestElevationEffortForDistance` record the evaluated windows in a ghost out-parameter; the distance scan records those up to its panic when it panics. That record is specification only; the efforts returned are what the source computes.

## Findings

| source | as written | input that shows it | evidently intended | confidence | as-written member | corrected member |
|---|---|---|---|---|---|---|
| back-go/domain/statistics/maxstreakstatistic.go:44-60 | `activeDays` has `last - first` slots, which leaves out the newest day. The last run is never compared with `maxLen` after the loop | activities on three consecutive days give 0 | 3, the longest run of consecutive active days | not executed | MaxStreak.TrailingRunIgnored | MaxStreak.MaxStreakCorrected |
| back-kotlin/src/main/kotlin/me/nicolas/stravastats/domain/services/ActivityHelper.kt:31 | `subList(i - size, i + size)` holds `2*size` values but is divided by `2*size + 1` | [3.0, 3.0, 3.0] with size 1 smooths the middle to 2.0 | 3.0, the centred mean | not executed | ActivityHelper.AsWrittenExample | ActivityHelper.CenteredKeepsConstant |
| back-kotlin/src/main/kotlin/me/nicolas/stravastats/adapters/localrepositories/fit/FITRepository.kt:387-390 | after a trailing run of zeros the inner `while (this[index] == 0)` runs past the end and throws | [5, 0] | the trailing zeros take the last recorded value | not executed | FITRepository.AsWrittenTrailingGapThrows | FITRepository.FixCoordinateCorrected |
| back-kotlin/src/main/kotlin/me/nicolas/stravastats/adapters/localrepositories/fit/FITRepository.kt:388 | `(lastValidValue + firstValidValue) / 2` overflows a 32-bit Int | [2147483000, 0, 2147483600] fills -348 | 2147483300, the midpoint | not executed | FITRepository.AsWrittenOverflows | FITRepository.CorrectedWithinRecorded |
| back-go/domain/statistics/besteffortdistance.go:76 | `nonNullWatts.Data` dereferences the power stream, which is nil for an activity recorded without a power meter | a 1 km activity in 200 s without power data, against the 1 km target | the effort is kept with average power 0, as `averagePower` in statistics.go does | not executed | BestEffortDistance.AsWrittenNoPowerPanics | BestEffortDistance.PickNilSafe |
