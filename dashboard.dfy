/**
 * The dashboard service (`dashboardService.go`): the Eddington number recomputed from the per-day
 * kilometres the activity provider hands over, the cumulative distance and elevation of a year walked
 * day by day in key order, and the per-year sums, averages and maxima of the dashboard.
 */
module Dashboard {
  import opened Numeric
  import opened Text
  import opened Strava
  import opened Sorting
  import opened Eddington
  import opened Service

  // ---------------------------------------------------------------- the Eddington number

  /**
   * `List` read against the day totals: as long as the largest total (none exceeds it, and when
   * it is not empty some day reaches it), entry k - 1 counting the days with at least k km.
   */
  ghost predicate IsEddingtonList(days: map<string, int>, list: seq<int>)
  {
    && DaysAtLeast(days, |list| + 1) == 0
    && (|list| > 0 ==> DaysAtLeast(days, |list|) >= 1)
    && forall k :: 1 <= k <= |list| ==> list[k - 1] == DaysAtLeast(days, k)
  }

  /** Fewer days reach a larger distance. */
  lemma DaysAtLeastAntitone(days: map<string, int>, j: int, k: int)
    requires j <= k
    ensures DaysAtLeast(days, k) <= DaysAtLeast(days, j)
  {
    var high := set d | d in days && days[d] >= k;
    var low := set d | d in days && days[d] >= j;
    assert low == high + (low - high);
    assert high * (low - high) == {};
  }

  lemma {:induction false} CountReached(s: seq<int>, i: nat, k: int)
    requires i < |s| && s[i] >= k
    ensures CountAtLeast(s, k) >= 1
  {
    if i < |s| - 1 {
      CountReached(s[..|s| - 1], i, k);
    }
  }

  lemma CountStep(s: seq<int>, i: nat, k: int)
    requires i < |s|
    ensures CountAtLeast(s[..i + 1], k) == CountAtLeast(s[..i], k) + (if s[i] >= k then 1 else 0)
  {
    assert s[..i + 1][..i] == s[..i];
  }

  /**
   * The counting loops of `FetchEddingtonNumber`: `counts := make([]int, maxValue)`, then each total
   * adds one to the entries of 1 up to itself, walking down.
   */
  method CountDays(values: seq<int>, maxValue: nat) returns (list: seq<int>)
    requires forall i :: 0 <= i < |values| ==> values[i] <= maxValue
    ensures |list| == maxValue
    ensures forall j :: 0 <= j < maxValue ==> list[j] == CountAtLeast(values, j + 1)
  {
    var counts := new int[maxValue](_ => 0);
    for i := 0 to |values|
      invariant forall j :: 0 <= j < maxValue ==> counts[j] == CountAtLeast(values[..i], j + 1)
    {
      var value := values[i];
      var day := value;
      while day > 0
        invariant day <= value
        invariant forall j :: 0 <= j < maxValue ==>
          counts[j] == CountAtLeast(values[..i], j + 1) + (if day <= j < value then 1 else 0)
      {
        counts[day - 1] := counts[day - 1] + 1;
        day := day - 1;
      }
      forall j | 0 <= j < maxValue
        ensures counts[j] == CountAtLeast(values[..i + 1], j + 1)
      {
        CountStep(values, i, j + 1);
      }
    }
    list := counts[..];
    assert values[..|values|] == values;
  }

  /** The last loop of `FetchEddingtonNumber`: walking down from the end, the first d with `list[d - 1] >= d`, else 0. */
  method LargestReached(list: seq<int>) returns (number: nat)
    ensures number <= |list|
    ensures number == 0 || list[number - 1] >= number
    ensures forall d :: number <= d < |list| ==> list[d] < d + 1
  {
    number := 0;
    var day := |list|;
    while day > 0
      invariant 0 <= day <= |list|
      invariant forall d :: day <= d < |list| ==> list[d] < d + 1
    {
      if list[day - 1] >= day {
        number := day;
        break;
      }
      day := day - 1;
    }
  }

  /**
   * `FetchEddingtonNumber`: the largest daily total sizes the list, entry d - 1 counts the days of
   * at least d km, and the number is the largest d whose entry reaches d (0 if none). The day map is
   * walked in whatever order the map gives (`DailyDistancesOf`).
   */
  method FetchEddingtonNumber(days: map<string, int>) returns (number: nat, list: seq<int>)
    ensures days == map[] ==> list == []
    ensures IsEddingtonList(days, list)
    ensures number == 0 || (number <= |list| && list[number - 1] >= number)
    ensures forall d :: number <= d < |list| ==> list[d] < d + 1
    ensures IsEddingtonNumber(days, number)
  {
    if |days| == 0 {
      list := [];
    } else {
      var values := DailyDistancesOf(days);
      var maxValue := 0;
      for i := 0 to |values|
        invariant maxValue >= 0
        invariant forall j :: 0 <= j < i ==> values[j] <= maxValue
        invariant maxValue == 0 || exists j :: 0 <= j < i && values[j] == maxValue
      {
        if values[i] > maxValue {
          maxValue := values[i];
        }
      }
      list := CountDays(values, maxValue);
      CountNone(values, maxValue + 1);
      if maxValue > 0 {
        var j :| 0 <= j < |values| && values[j] == maxValue;
        CountReached(values, j, maxValue);
      }
    }
    number := LargestReached(list);
    forall k | k > number
      ensures DaysAtLeast(days, k) < k
    {
      if k > |list| {
        DaysAtLeastAntitone(days, |list| + 1, k);
      } else {
        assert list[k - 1] < k;
      }
    }
  }

  /** The dashboard's list is the statistic's `daysWithAtLeastXKm` for the same day totals. */
  lemma EddingtonListIsHistogram(days: map<string, int>, list: seq<int>, hist: seq<int>)
    requires IsEddingtonList(days, list) && IsHistogramOf(days, hist)
    ensures list == hist
  {
    if |list| < |hist| {
      DaysAtLeastAntitone(days, |list| + 1, |hist|);
    } else if |hist| < |list| {
      DaysAtLeastAntitone(days, |hist| + 1, |list|);
    }
    assert forall i :: 0 <= i < |list| ==> list[i] == DaysAtLeast(days, i + 1) == hist[i];
  }

  // ---------------------------------------------------------------- per-activity values

  /** The activity value a helper reads. */
  datatype Field = DistanceKm | ElevationGain | AverageSpeed | AverageHeartrate | MaxHeartrate | AverageWatts

  /** `activity.Distance / 1000`, `activity.TotalElevationGain`, and the other fields as they are. */
  function Value(a: Activity, f: Field): real
  {
    match f
    case DistanceKm => a.distance / 1000.0
    case ElevationGain => a.totalElevationGain
    case AverageSpeed => a.averageSpeed
    case AverageHeartrate => a.averageHeartrate
    case MaxHeartrate => a.maxHeartrate
    case AverageWatts => a.averageWatts
  }

  /** The sum of a field over the activities. */
  function Sum(activities: seq<Activity>, f: Field): real
  {
    if activities == [] then 0.0
    else Sum(activities[..|activities| - 1], f) + Value(activities[|activities| - 1], f)
  }

  lemma SumStep(activities: seq<Activity>, i: nat, f: Field)
    requires i < |activities|
    ensures Sum(activities[..i + 1], f) == Sum(activities[..i], f) + Value(activities[i], f)
  {
    assert activities[..i + 1][..i] == activities[..i];
  }

  /** No negative value, no negative sum. */
  lemma {:induction false} SumNonNegative(activities: seq<Activity>, f: Field)
    requires forall i :: 0 <= i < |activities| ==> Value(activities[i], f) >= 0.0
    ensures Sum(activities, f) >= 0.0
  {
    if activities != [] {
      SumNonNegative(activities[..|activities| - 1], f);
    }
  }

  /** Values of at most `m` add up to at most m times their number. */
  lemma {:induction false} SumAtMost(activities: seq<Activity>, f: Field, m: real)
    requires forall i :: 0 <= i < |activities| ==> Value(activities[i], f) <= m
    ensures Sum(activities, f) <= Times(|activities|, m)
  {
    if activities != [] {
      SumAtMost(activities[..|activities| - 1], f, m);
    }
  }

  // ---------------------------------------------------------------- cumulative totals

  /** The amount of the days `keys`, walked in order. */
  function TotalOver(byDay: map<string, seq<Activity>>, keys: seq<string>, f: Field): real
    requires forall j :: 0 <= j < |keys| ==> keys[j] in byDay
  {
    if keys == [] then 0.0
    else TotalOver(byDay, keys[..|keys| - 1], f) + Sum(byDay[keys[|keys| - 1]], f)
  }

  lemma TotalOverStep(byDay: map<string, seq<Activity>>, keys: seq<string>, i: nat, f: Field)
    requires i < |keys| && forall j :: 0 <= j < |keys| ==> keys[j] in byDay
    ensures TotalOver(byDay, keys[..i + 1], f) == TotalOver(byDay, keys[..i], f) + Sum(byDay[keys[i]], f)
  {
    assert keys[..i + 1][..i] == keys[..i];
  }

  /** After the walk has passed `keys[..i]`, each of those days holds the running total up to it. */
  predicate Walked(byDay: map<string, seq<Activity>>, keys: seq<string>, i: nat, result: map<string, real>, f: Field)
    requires i <= |keys| && forall j :: 0 <= j < |keys| ==> keys[j] in byDay
  {
    && result.Keys == (set j | 0 <= j < i :: keys[j])
    && forall j :: 0 <= j < i ==> result[keys[j]] == TotalOver(byDay, keys[..j + 1], f)
  }

  /** Storing a total under the next key extends the stored days by that key. */
  lemma StoredKeysStep(keys: seq<string>, i: nat, result: map<string, real>, sum: real)
    requires i < |keys| && result.Keys == (set j | 0 <= j < i :: keys[j])
    ensures result[keys[i] := sum].Keys == (set j | 0 <= j < i + 1 :: keys[j])
  {
    var before := set j | 0 <= j < i :: keys[j];
    forall k | k in (set j | 0 <= j < i + 1 :: keys[j])
      ensures k in before + {keys[i]}
    {
      var j :| 0 <= j < i + 1 && k == keys[j];
      if j < i {
        assert k in before;
      }
    }
    assert result[keys[i] := sum].Keys == before + {keys[i]};
  }

  /** Storing the next running total keeps the totals already stored. */
  lemma StoredTotalsStep(byDay: map<string, seq<Activity>>, keys: seq<string>, i: nat, result: map<string, real>, f: Field, sum: real)
    requires i < |keys| && (forall j :: 0 <= j < |keys| ==> keys[j] in byDay) && Distinct(keys)
    requires forall j :: 0 <= j < i ==> keys[j] in result && result[keys[j]] == TotalOver(byDay, keys[..j + 1], f)
    requires sum == TotalOver(byDay, keys[..i + 1], f)
    ensures forall j :: 0 <= j < i + 1 ==> result[keys[i] := sum][keys[j]] == TotalOver(byDay, keys[..j + 1], f)
  {
    forall j | 0 <= j < i
      ensures keys[j] != keys[i]
    {
    }
  }

  lemma WalkedStep(byDay: map<string, seq<Activity>>, keys: seq<string>, i: nat, result: map<string, real>, f: Field, sum: real)
    requires i < |keys| && (forall j :: 0 <= j < |keys| ==> keys[j] in byDay) && Distinct(keys)
    requires Walked(byDay, keys, i, result, f) && sum == TotalOver(byDay, keys[..i + 1], f)
    ensures Walked(byDay, keys, i + 1, result[keys[i] := sum], f)
  {
    StoredKeysStep(keys, i, result, sum);
    assert forall j :: 0 <= j < i ==> keys[j] in result.Keys;
    StoredTotalsStep(byDay, keys, i, result, f, sum);
  }

  /**
   * `result` has the days of `byDay` and holds, for every day, the running total of `f` over that
   * day and all days before it in key order.
   */
  ghost predicate IsRunningTotal(byDay: map<string, seq<Activity>>, result: map<string, real>, f: Field)
  {
    var keys := KeyOrder(byDay.Keys);
    result.Keys == byDay.Keys && Walked(byDay, keys, |keys|, result, f)
  }

  /** The inner loop of the walk: one day's activities added to the running `sum`. */
  method AddUp(activities: seq<Activity>, f: Field, start: real) returns (sum: real)
    ensures sum == start + Sum(activities, f)
  {
    sum := start;
    for j := 0 to |activities|
      invariant sum == start + Sum(activities[..j], f)
    {
      SumStep(activities, j, f);
      sum := sum + Value(activities[j], f);
    }
    assert activities[..|activities|] == activities;
  }

  /** The outer loop of the walk: the running total stored under each day of `keys` in turn. */
  method WalkDays(byDay: map<string, seq<Activity>>, keys: seq<string>, f: Field) returns (result: map<string, real>)
    requires Distinct(keys) && forall j :: 0 <= j < |keys| ==> keys[j] in byDay
    ensures Walked(byDay, keys, |keys|, result, f)
  {
    result := map[];
    var sum := 0.0;
    for i := 0 to |keys|
      invariant sum == TotalOver(byDay, keys[..i], f)
      invariant Walked(byDay, keys, i, result, f)
    {
      sum := AddUp(byDay[keys[i]], f, sum);
      TotalOverStep(byDay, keys, i, f);
      WalkedStep(byDay, keys, i, result, f, sum);
      result := result[keys[i] := sum];
    }
  }

  /** The walk of `calculateCumulativeDistance` and `cumulativeElevation`, for the field `f`. */
  method RunningTotals(byDay: map<string, seq<Activity>>, f: Field) returns (result: map<string, real>)
    ensures IsRunningTotal(byDay, result, f)
  {
    var keys := SortedKeys(byDay);
    KeyOrderDistinct(keys, byDay.Keys);
    result := WalkDays(byDay, keys, f);
    KeyOrderCovers(keys, byDay.Keys);
  }

  /** `calculateCumulativeDistance`: the running total of the kilometres, day by day in key order. */
  method CumulativeDistance(byDay: map<string, seq<Activity>>) returns (result: map<string, real>)
    ensures IsRunningTotal(byDay, result, DistanceKm)
  {
    result := RunningTotals(byDay, DistanceKm);
  }

  /** `cumulativeElevation`: the running total of the elevation gain, day by day in key order. */
  method CumulativeElevation(byDay: map<string, seq<Activity>>) returns (result: map<string, real>)
    ensures IsRunningTotal(byDay, result, ElevationGain)
  {
    result := RunningTotals(byDay, ElevationGain);
  }

  /** Where no day's amount is negative, a longer walk has a total at least as large. */
  lemma {:induction false} TotalOverGrows(byDay: map<string, seq<Activity>>, keys: seq<string>, m: nat, n: nat, f: Field)
    requires m <= n <= |keys| && forall j :: 0 <= j < |keys| ==> keys[j] in byDay
    requires forall j :: 0 <= j < |keys| ==> Sum(byDay[keys[j]], f) >= 0.0
    ensures TotalOver(byDay, keys[..m], f) <= TotalOver(byDay, keys[..n], f)
  {
    if m < n {
      TotalOverGrows(byDay, keys, m, n - 1, f);
      TotalOverStep(byDay, keys, n - 1, f);
    }
  }

  /** No negative value in any day, no negative day amount. */
  lemma DayAmountsNonNegative(byDay: map<string, seq<Activity>>, f: Field)
    requires forall day, i :: day in byDay && 0 <= i < |byDay[day]| ==> Value(byDay[day][i], f) >= 0.0
    ensures forall day :: day in byDay ==> Sum(byDay[day], f) >= 0.0
  {
    forall day | day in byDay
      ensures Sum(byDay[day], f) >= 0.0
    {
      SumNonNegative(byDay[day], f);
    }
  }

  lemma WalkedGrows(byDay: map<string, seq<Activity>>, keys: seq<string>, result: map<string, real>, f: Field, i: nat, j: nat)
    requires i <= j < |keys| && forall k :: 0 <= k < |keys| ==> keys[k] in byDay
    requires forall day :: day in byDay ==> Sum(byDay[day], f) >= 0.0
    requires Walked(byDay, keys, |keys|, result, f)
    ensures result[keys[i]] <= result[keys[j]]
  {
    TotalOverGrows(byDay, keys, i + 1, j + 1, f);
  }

  /**
   * With no negative value, the cumulative chart never goes down: a day later in key order has a
   * running total at least that of an earlier one.
   */
  lemma RunningTotalNonDecreasing(byDay: map<string, seq<Activity>>, result: map<string, real>, f: Field, a: string, b: string)
    requires IsRunningTotal(byDay, result, f)
    requires forall day, i :: day in byDay && 0 <= i < |byDay[day]| ==> Value(byDay[day][i], f) >= 0.0
    requires a in result && b in result && LexLe(a, b)
    ensures result[a] <= result[b]
  {
    var keys := KeyOrder(byDay.Keys);
    var ia := PositionOf(keys, a);
    var ib := PositionOf(keys, b);
    KeyOrderIndex(keys, byDay.Keys, ia, ib);
    DayAmountsNonNegative(byDay, f);
    WalkedGrows(byDay, keys, result, f, ia, ib);
  }

  // ---------------------------------------------------------------- the per-year figures

  /** `sumDistance`: the kilometres of the activities added up. */
  method SumDistance(activities: seq<Activity>) returns (sum: real)
    ensures sum == Sum(activities, DistanceKm)
  {
    sum := AddUp(activities, DistanceKm, 0.0);
  }

  /** `averageDistance`: the mean kilometres, 0 for no activities. */
  method AverageDistance(activities: seq<Activity>) returns (average: real)
    ensures activities == [] ==> average == 0.0
    ensures activities != [] ==> average == Sum(activities, DistanceKm) / |activities| as real
  {
    if |activities| == 0 {
      return 0.0;
    }
    var sum := SumDistance(activities);
    average := sum / |activities| as real;
  }

  /**
   * `maxDistance`, `maxHeartRate` and `maxWatts`: starting from 0, the largest value met, so 0 when
   * no value is above 0.
   */
  method MaxOf(activities: seq<Activity>, f: Field) returns (m: real)
    ensures m >= 0.0
    ensures forall i :: 0 <= i < |activities| ==> Value(activities[i], f) <= m
    ensures m == 0.0 || exists i :: 0 <= i < |activities| && Value(activities[i], f) == m
  {
    m := 0.0;
    for i := 0 to |activities|
      invariant m >= 0.0
      invariant forall j :: 0 <= j < i ==> Value(activities[j], f) <= m
      invariant m == 0.0 || exists j :: 0 <= j < i && Value(activities[j], f) == m
    {
      var v := Value(activities[i], f);
      if v > m {
        m := v;
      }
    }
  }

  /** The mean of values between 0 and `m` is between 0 and m. */
  lemma AverageWithin(activities: seq<Activity>, f: Field, m: real)
    requires activities != []
    requires forall i :: 0 <= i < |activities| ==> 0.0 <= Value(activities[i], f) <= m
    ensures 0.0 <= Sum(activities, f) / |activities| as real <= m
  {
    SumNonNegative(activities, f);
    SumAtMost(activities, f, m);
    MeanAtMost(Sum(activities, f), |activities|, m);
  }

  /** The elevation gains, each cut to a whole number of metres toward zero, added up. */
  function ElevationSum(activities: seq<Activity>): int
  {
    if activities == [] then 0
    else ElevationSum(activities[..|activities| - 1]) + Trunc(activities[|activities| - 1].totalElevationGain)
  }

  lemma ElevationSumStep(activities: seq<Activity>, i: nat)
    requires i < |activities|
    ensures ElevationSum(activities[..i + 1]) == ElevationSum(activities[..i]) + Trunc(activities[i].totalElevationGain)
  {
    assert activities[..i + 1][..i] == activities[..i];
  }

  /** `sumElevation`. */
  method SumElevation(activities: seq<Activity>) returns (sum: int)
    ensures sum == ElevationSum(activities)
  {
    sum := 0;
    for i := 0 to |activities|
      invariant sum == ElevationSum(activities[..i])
    {
      ElevationSumStep(activities, i);
      sum := sum + Trunc(activities[i].totalElevationGain);
    }
    assert activities[..|activities|] == activities;
  }

  /** `averageElevation`: the whole-metre sum divided by the count as Go divides integers, 0 for none. */
  method AverageElevation(activities: seq<Activity>) returns (average: int)
    ensures activities == [] ==> average == 0
    ensures activities != [] ==> average == Quot(ElevationSum(activities), |activities|)
  {
    if |activities| == 0 {
      return 0;
    }
    var sum := SumElevation(activities);
    average := Quot(sum, |activities|);
  }

  /** `maxElevation`: the largest whole-metre gain, starting from 0. */
  method MaxElevation(activities: seq<Activity>) returns (m: int)
    ensures m >= 0
    ensures forall i :: 0 <= i < |activities| ==> Trunc(activities[i].totalElevationGain) <= m
    ensures m == 0 || exists i :: 0 <= i < |activities| && Trunc(activities[i].totalElevationGain) == m
  {
    m := 0;
    for i := 0 to |activities|
      invariant m >= 0
      invariant forall j :: 0 <= j < i ==> Trunc(activities[j].totalElevationGain) <= m
      invariant m == 0 || exists j :: 0 <= j < i && Trunc(activities[j].totalElevationGain) == m
    {
      var elevation := Trunc(activities[i].totalElevationGain);
      if elevation > m {
        m := elevation;
      }
    }
  }

  lemma {:induction false} ElevationSumBounds(activities: seq<Activity>, m: int)
    requires forall i :: 0 <= i < |activities| ==> 0 <= Trunc(activities[i].totalElevationGain) <= m
    ensures 0 <= ElevationSum(activities) <= |activities| * m
  {
    if activities != [] {
      var n := |activities| - 1;
      ElevationSumBounds(activities[..n], m);
      assert (n + 1) * m == n * m + m;
    }
  }

  /** The average elevation does not exceed the largest gain. */
  lemma AverageElevationWithin(activities: seq<Activity>, m: int)
    requires activities != []
    requires forall i :: 0 <= i < |activities| ==> 0 <= Trunc(activities[i].totalElevationGain) <= m
    ensures 0 <= Quot(ElevationSum(activities), |activities|) <= m
  {
    ElevationSumBounds(activities, m);
    QuotAtMost(ElevationSum(activities), |activities|, m);
  }

  /** The positive values of a field added up; the values of 0 or less are skipped. */
  function PositiveSum(activities: seq<Activity>, f: Field): real
  {
    if activities == [] then 0.0
    else
      var v := Value(activities[|activities| - 1], f);
      PositiveSum(activities[..|activities| - 1], f) + (if v > 0.0 then v else 0.0)
  }

  /** The number of activities whose value of the field is positive. */
  function PositiveCount(activities: seq<Activity>, f: Field): (n: nat)
    ensures n <= |activities|
  {
    if activities == [] then 0
    else PositiveCount(activities[..|activities| - 1], f) + (if Value(activities[|activities| - 1], f) > 0.0 then 1 else 0)
  }

  /** The positive values, each cut to a whole number toward zero, added up. */
  function PositiveTruncSum(activities: seq<Activity>, f: Field): int
  {
    if activities == [] then 0
    else
      var v := Value(activities[|activities| - 1], f);
      PositiveTruncSum(activities[..|activities| - 1], f) + (if v > 0.0 then Trunc(v) else 0)
  }

  lemma PositiveStep(activities: seq<Activity>, i: nat, f: Field)
    requires i < |activities|
    ensures var v := Value(activities[i], f);
      && PositiveSum(activities[..i + 1], f) == PositiveSum(activities[..i], f) + (if v > 0.0 then v else 0.0)
      && PositiveCount(activities[..i + 1], f) == PositiveCount(activities[..i], f) + (if v > 0.0 then 1 else 0)
      && PositiveTruncSum(activities[..i + 1], f) == PositiveTruncSum(activities[..i], f) + (if v > 0.0 then Trunc(v) else 0)
  {
    assert activities[..i + 1][..i] == activities[..i];
  }

  /** `averageSpeed` and `averageWatts`: the mean of the positive values only, 0 when there is none. */
  method PositiveAverage(activities: seq<Activity>, f: Field) returns (average: real)
    ensures PositiveCount(activities, f) == 0 ==> average == 0.0
    ensures PositiveCount(activities, f) > 0 ==> average == PositiveSum(activities, f) / PositiveCount(activities, f) as real
  {
    var sum := 0.0;
    var count := 0;
    for i := 0 to |activities|
      invariant sum == PositiveSum(activities[..i], f) && count == PositiveCount(activities[..i], f)
    {
      PositiveStep(activities, i, f);
      var v := Value(activities[i], f);
      if v > 0.0 {
        sum := sum + v;
        count := count + 1;
      }
    }
    assert activities[..|activities|] == activities;
    if count == 0 {
      return 0.0;
    }
    average := sum / count as real;
  }

  /** `averageHeartRate`: the whole-beat positive heart rates added up and divided by their number, 0 for none. */
  method AverageHeartRate(activities: seq<Activity>) returns (average: int)
    ensures PositiveCount(activities, AverageHeartrate) == 0 ==> average == 0
    ensures PositiveCount(activities, AverageHeartrate) > 0 ==>
      average == Quot(PositiveTruncSum(activities, AverageHeartrate), PositiveCount(activities, AverageHeartrate))
  {
    var sum := 0;
    var count := 0;
    for i := 0 to |activities|
      invariant sum == PositiveTruncSum(activities[..i], AverageHeartrate)
      invariant count == PositiveCount(activities[..i], AverageHeartrate)
    {
      PositiveStep(activities, i, AverageHeartrate);
      if activities[i].averageHeartrate > 0.0 {
        sum := sum + Trunc(activities[i].averageHeartrate);
        count := count + 1;
      }
    }
    assert activities[..|activities|] == activities;
    if count == 0 {
      return 0;
    }
    average := Quot(sum, count);
  }

  lemma {:induction false} PositiveBounds(activities: seq<Activity>, f: Field, m: real)
    requires forall i :: 0 <= i < |activities| ==> Value(activities[i], f) <= m
    ensures 0.0 <= PositiveSum(activities, f) <= Times(PositiveCount(activities, f), m)
    ensures PositiveCount(activities, f) > 0 ==> PositiveSum(activities, f) > 0.0
  {
    if activities != [] {
      PositiveBounds(activities[..|activities| - 1], f, m);
    }
  }

  /** The mean of the positive values is positive and does not exceed the largest value. */
  lemma PositiveAverageWithin(activities: seq<Activity>, f: Field, m: real)
    requires PositiveCount(activities, f) > 0
    requires forall i :: 0 <= i < |activities| ==> Value(activities[i], f) <= m
    ensures 0.0 < PositiveSum(activities, f) / PositiveCount(activities, f) as real <= m
  {
    PositiveBounds(activities, f, m);
    MeanAtMost(PositiveSum(activities, f), PositiveCount(activities, f), m);
  }

  lemma {:induction false} PositiveTruncBounds(activities: seq<Activity>, f: Field, m: int)
    requires forall i :: 0 <= i < |activities| ==> Value(activities[i], f) <= m as real
    ensures 0 <= PositiveTruncSum(activities, f) <= PositiveCount(activities, f) * m
  {
    if activities != [] {
      var rest := activities[..|activities| - 1];
      var v := Value(activities[|activities| - 1], f);
      PositiveTruncBounds(rest, f, m);
      var c := PositiveCount(rest, f);
      assert (c + 1) * m == c * m + m;
      if v > 0.0 {
        assert Trunc(v) as real <= v <= m as real;
      }
    }
  }

  /** The average heart rate is between 0 and the largest heart rate. */
  lemma AverageHeartRateWithin(activities: seq<Activity>, m: int)
    requires PositiveCount(activities, AverageHeartrate) > 0
    requires forall i :: 0 <= i < |activities| ==> activities[i].averageHeartrate <= m as real
    ensures 0 <= Quot(PositiveTruncSum(activities, AverageHeartrate), PositiveCount(activities, AverageHeartrate)) <= m
  {
    PositiveTruncBounds(activities, AverageHeartrate, m);
    QuotAtMost(PositiveTruncSum(activities, AverageHeartrate), PositiveCount(activities, AverageHeartrate), m);
  }
}
