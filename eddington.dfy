/**
 * The Eddington number (`eddingtonnumber.go`): the largest E such that on at least E days the
 * activities of that day add up to at least E km. The statistic groups the activities' kilometres
 * per day, sorts the daily totals in descending order, reads E off the longest prefix whose i-th
 * total is at least i, and builds the histogram `daysWithAtLeastXKm` (entry k - 1: the number of
 * days with at least k km) by counting and a running sum.
 */
module Eddington {
  import opened Wrappers
  import opened Numeric
  import opened Text
  import Calendar
  import opened Strava
  import opened Sorting

  // ---------------------------------------------------------------- counting days

  /** The number of totals in `s` that are at least `k`. */
  function CountAtLeast(s: seq<int>, k: int): (n: nat)
    ensures n <= |s|
  {
    if s == [] then 0 else CountAtLeast(s[..|s| - 1], k) + (if s[|s| - 1] >= k then 1 else 0)
  }

  /** The number of days of `days` with a total of at least `k`. */
  function DaysAtLeast(days: map<string, int>, k: int): (n: nat)
    ensures n <= |days|
  {
    var reached := set d | d in days && days[d] >= k;
    assert days.Keys == reached + (days.Keys - reached);
    assert reached * (days.Keys - reached) == {};
    |reached|
  }

  /** E is the Eddington number of the day totals: E days reach E, and for no larger k do k days reach k. */
  ghost predicate IsEddingtonNumber(days: map<string, int>, e: nat)
  {
    DaysAtLeast(days, e) >= e && forall k :: k > e ==> DaysAtLeast(days, k) < k
  }

  /** There is at most one Eddington number. */
  lemma EddingtonNumberUnique(days: map<string, int>, e1: nat, e2: nat)
    requires IsEddingtonNumber(days, e1) && IsEddingtonNumber(days, e2)
    ensures e1 == e2
  {
  }

  lemma {:induction false} CountAppend(a: seq<int>, b: seq<int>, k: int)
    ensures CountAtLeast(a + b, k) == CountAtLeast(a, k) + CountAtLeast(b, k)
    decreases |b|
  {
    if b != [] {
      var n := |b| - 1;
      CountAppend(a, b[..n], k);
      assert (a + b)[..|a + b| - 1] == a + b[..n];
    } else {
      assert a + b == a;
    }
  }

  lemma CountSlices(s: seq<int>, m: nat, k: int)
    requires m <= |s|
    ensures CountAtLeast(s, k) == CountAtLeast(s[..m], k) + CountAtLeast(s[m..], k)
  {
    assert s == s[..m] + s[m..];
    CountAppend(s[..m], s[m..], k);
  }

  lemma {:induction false} CountAll(s: seq<int>, k: int)
    requires forall i :: 0 <= i < |s| ==> s[i] >= k
    ensures CountAtLeast(s, k) == |s|
  {
    if s != [] {
      CountAll(s[..|s| - 1], k);
    }
  }

  lemma {:induction false} CountNone(s: seq<int>, k: int)
    requires forall i :: 0 <= i < |s| ==> s[i] < k
    ensures CountAtLeast(s, k) == 0
  {
    if s != [] {
      CountNone(s[..|s| - 1], k);
    }
  }

  /** Counting does not depend on the order of the totals. */
  lemma {:induction false} CountPermutation(a: seq<int>, b: seq<int>, k: int)
    requires multiset(a) == multiset(b)
    ensures CountAtLeast(a, k) == CountAtLeast(b, k)
    decreases |a|
  {
    if a != [] {
      var n := |a| - 1;
      var x := a[n];
      assert a == a[..n] + [x];
      assert x in multiset(b);
      var i :| 0 <= i < |b| && b[i] == x;
      var b' := b[..i] + b[i + 1..];
      assert b == b[..i] + [x] + b[i + 1..];
      assert multiset(b') == multiset(b) - multiset{x} by {
        assert multiset(b) == multiset(b[..i]) + multiset{x} + multiset(b[i + 1..]);
      }
      assert multiset(a[..n]) == multiset(a) - multiset{x};
      CountPermutation(a[..n], b', k);
      CountAppend(b[..i] + [x], b[i + 1..], k);
      CountAppend(b[..i], [x], k);
      CountAppend(b[..i], b[i + 1..], k);
      assert [x][..0] == [];
    }
  }

  // ---------------------------------------------------------------- the prefix scan

  /** The loop's result: the longest prefix of `d` whose (i+1)-th total is at least i + 1. */
  predicate IsEddingtonPrefix(d: seq<int>, e: nat)
  {
    e <= |d| && (forall i :: 0 <= i < e ==> d[i] >= i + 1) && (e < |d| ==> d[e] < e + 1)
  }

  /** The scan over the totals sorted in descending order. */
  method EddingtonOfSorted(dailyDistances: seq<int>) returns (eddingtonNumber: nat)
    ensures IsEddingtonPrefix(dailyDistances, eddingtonNumber)
  {
    eddingtonNumber := 0;
    var i := 0;
    while i < |dailyDistances|
      invariant 0 <= i <= |dailyDistances| && eddingtonNumber == i
      invariant forall j :: 0 <= j < i ==> dailyDistances[j] >= j + 1
    {
      var days := i + 1;
      if dailyDistances[i] >= days {
        eddingtonNumber := days;
      } else {
        break;
      }
      i := i + 1;
    }
  }

  lemma EddingtonReached(d: seq<int>, e: nat)
    requires forall i, j :: 0 <= i < j < |d| ==> d[i] >= d[j]
    requires IsEddingtonPrefix(d, e)
    ensures CountAtLeast(d, e) >= e
  {
    var head, tail := d[..e], d[e..];
    forall i | 0 <= i < e
      ensures head[i] >= e
    {
      assert d[i] >= d[e - 1];
    }
    CountAll(head, e);
    CountSlices(d, e, e);
  }

  lemma EddingtonNotExceeded(d: seq<int>, e: nat, k: int)
    requires forall i, j :: 0 <= i < j < |d| ==> d[i] >= d[j]
    requires IsEddingtonPrefix(d, e) && k > e
    ensures CountAtLeast(d, k) < k
  {
    var tail := d[e..];
    CountSlices(d, e, k);
    if e < |d| {
      forall i | 0 <= i < |tail|
        ensures tail[i] < k
      {
        assert tail[i] == d[e + i];
        assert d[e + i] <= d[e];
      }
      CountNone(tail, k);
    }
  }

  /** On descending totals, the prefix the scan finds is the Eddington number. */
  lemma EddingtonPrefixIsEddington(d: seq<int>, e: nat)
    requires forall i, j :: 0 <= i < j < |d| ==> d[i] >= d[j]
    requires IsEddingtonPrefix(d, e)
    ensures CountAtLeast(d, e) >= e
    ensures forall k :: k > e ==> CountAtLeast(d, k) < k
  {
    EddingtonReached(d, e);
    forall k | k > e
      ensures CountAtLeast(d, k) < k
    {
      EddingtonNotExceeded(d, e, k);
    }
  }

  // ---------------------------------------------------------------- the histogram

  /** The number of totals the counting loop files under `v`: positive ones, the largest capped at `max`. */
  function CountClamped(s: seq<int>, v: int, max: int): (n: nat)
    ensures n <= |s|
  {
    if s == [] then 0
    else
      var d := s[|s| - 1];
      CountClamped(s[..|s| - 1], v, max) + (if d > 0 && (if d > max then max else d) == v then 1 else 0)
  }

  /** The days at `k` or more are those filed under `k` and those at `k + 1` or more (all of them at `max`). */
  lemma {:induction false} CountSplit(s: seq<int>, k: int, max: int)
    requires 1 <= k <= max
    ensures CountAtLeast(s, k) == CountClamped(s, k, max) + (if k < max then CountAtLeast(s, k + 1) else 0)
  {
    if s != [] {
      CountSplit(s[..|s| - 1], k, max);
    }
  }

  /**
   * `daysWithAtLeastXKm` for the sorted totals `d`: empty when there are none or the first is not
   * positive; otherwise as long as the first (largest) total, entry k - 1 counting totals of at least k.
   */
  predicate IsHistogram(d: seq<int>, hist: seq<int>)
  {
    && |hist| == (if d == [] || d[0] <= 0 then 0 else d[0])
    && forall k :: 1 <= k <= |hist| ==> hist[k - 1] == CountAtLeast(d, k)
  }

  /** The largest of descending totals is reached by one of them and exceeded by none. */
  lemma LargestCounts(d: seq<int>)
    requires d != [] && forall i, j :: 0 <= i < j < |d| ==> d[i] >= d[j]
    ensures CountAtLeast(d, d[0]) >= 1 && CountAtLeast(d, d[0] + 1) == 0
  {
    CountSlices(d, 1, d[0]);
    assert d[..1] == [d[0]] && [d[0]][..0] == [];
    forall i | 0 <= i < |d|
      ensures d[i] < d[0] + 1
    {
      if i > 0 {
        assert d[0] >= d[i];
      }
    }
    CountNone(d, d[0] + 1);
  }

  /**
   * `daysWithAtLeastXKm` read against the days themselves: empty when there are no days; otherwise
   * as long as the largest daily total (some day reaches its length, none exceeds it), entry k - 1
   * counting the days with at least k km.
   */
  ghost predicate IsHistogramOf(days: map<string, int>, hist: seq<int>)
  {
    && (days == map[] ==> hist == [])
    && (days != map[] ==> DaysAtLeast(days, |hist|) >= 1)
    && DaysAtLeast(days, |hist| + 1) == 0
    && forall k :: 1 <= k <= |hist| ==> hist[k - 1] == DaysAtLeast(days, k)
  }

  // ---------------------------------------------------------------- parsing the day

  /**
   * The clock part of the layout "15:04:05" as `time.Parse` reads it: an hour of one or two digits
   * below 24, then two-digit minutes and seconds below 60, then optionally a fraction of a second
   * (a period or comma and at least one digit), and nothing more.
   */
  predicate ClockOk(c: string)
  {
    var h := if |c| >= 2 && IsDigit(c[1]) then 2 else 1;
    && |c| >= h + 6
    && AllDigits(c[..h]) && DigitsValue(c[..h]) < 24
    && c[h] == ':' && AllDigits(c[h + 1..h + 3]) && DigitsValue(c[h + 1..h + 3]) < 60
    && c[h + 3] == ':' && AllDigits(c[h + 4..h + 6]) && DigitsValue(c[h + 4..h + 6]) < 60
    && (|c| == h + 6 || (|c| >= h + 8 && (c[h + 6] == '.' || c[h + 6] == ',') && AllDigits(c[h + 7..])))
  }

  /** `time.Parse("2006-01-02 15:04:05", s)` succeeds. */
  predicate ParsesAsDateTime(s: string)
  {
    |s| >= 11 && Calendar.ParseDate(s[..10]).Some? && s[10] == ' ' && ClockOk(s[11..])
  }

  /**
   * `parseActivityDate`: blank text is an error; text in the layout "2006-01-02 15:04:05" gives its
   * date formatted as "2006-01-02"; otherwise the text before the first 'T', or when that is empty
   * the text before the first space. The layouts RFC 3339 (with or without fractional seconds) and
   * "2006-01-02", which the source tries first, give the same result as the 'T' fallback
   * (`DateLayoutAgreesWithFallback`, `DateTimeLayoutAgreesWithFallback`), so they are not written out.
   */
  function ParseActivityDate(startDateLocal: string): Result<string>
  {
    var s := TrimSpace(startDateLocal);
    if s == [] then Err("empty date string")
    else if ParsesAsDateTime(s) then Ok(Calendar.FormatDate(Calendar.ParseDate(s[..10]).value))
    else if Before(s, 'T') != [] then Ok(Before(s, 'T'))
    else Ok(Before(s, ' '))
  }

  /** A text the date-only layout accepts is its own text before 'T', and its own formatted date. */
  lemma DateLayoutAgreesWithFallback(s: string)
    requires Calendar.ParseDate(s).Some?
    ensures Before(s, 'T') == s == Calendar.FormatDate(Calendar.ParseDate(s).value)
  {
    Calendar.FormatParseDate(s);
    assert 'T' !in s;
  }

  /** The date of a text an RFC 3339 layout accepts (a date, then 'T') is its text before 'T'. */
  lemma DateTimeLayoutAgreesWithFallback(s: string)
    requires |s| > 10 && Calendar.ParseDate(s[..10]).Some? && s[10] == 'T'
    ensures Before(s, 'T') == s[..10] == Calendar.FormatDate(Calendar.ParseDate(s[..10]).value)
  {
    Calendar.FormatParseDate(s[..10]);
    BeforeFirst(s, 10, 'T');
  }

  lemma {:induction false} BeforeFirst(s: string, i: nat, sep: char)
    requires i < |s| && s[i] == sep && sep !in s[..i]
    ensures Before(s, sep) == s[..i]
  {
    if i > 0 {
      assert s[0] in s[..i];
      BeforeFirst(s[1..], i - 1, sep);
      assert s[1..][..i - 1] == s[1..i];
      assert forall c :: c in s[1..i] ==> c in s[..i];
      assert s[..i] == [s[0]] + s[1..i];
    }
  }

  /** A non-blank date is never rejected; the day is a non-empty prefix of the trimmed text. */
  lemma ParseActivityDateSpec(startDateLocal: string)
    ensures var r := ParseActivityDate(startDateLocal);
      && (r.Err? <==> forall k :: 0 <= k < |startDateLocal| ==> IsSpace(startDateLocal[k]))
      && (r.Ok? ==> r.value != [] && r.value == TrimSpace(startDateLocal)[..|r.value|])
  {
    var s := TrimSpace(startDateLocal);
    if s != [] && ParsesAsDateTime(s) {
      Calendar.FormatParseDate(s[..10]);
    }
  }

  // ---------------------------------------------------------------- kilometres per day

  /** `int(activity.Distance / 1000)`: whole kilometres, truncated. */
  function Km(a: Activity): int
  {
    Trunc(a.distance / 1000.0)
  }

  /** An activity that adds to its day: present, with a positive distance, a date and at least one whole km. */
  predicate Counted(a: Option<Activity>)
  {
    a.Some? && a.value.distance > 0.0 && ParseActivityDate(a.value.startDateLocal).Ok? && Km(a.value) > 0
  }

  function DayOf(a: Option<Activity>): string
    requires Counted(a)
  {
    ParseActivityDate(a.value.startDateLocal).value
  }

  /** `activeDaysMap[date] += km` for one activity, when it counts. */
  function AddActivity(days: map<string, int>, a: Option<Activity>): map<string, int>
  {
    if Counted(a) then AddKm(days, DayOf(a), Km(a.value)) else days
  }

  /** `days[day] += km`, an absent day counting as 0. */
  function AddKm(days: map<string, int>, day: string, km: int): map<string, int>
  {
    days[day := (if day in days then days[day] else 0) + km]
  }

  /** The day map after the loop over `activities`. */
  function DailyKm(activities: seq<Option<Activity>>): map<string, int>
  {
    if activities == [] then map[]
    else AddActivity(DailyKm(activities[..|activities| - 1]), activities[|activities| - 1])
  }

  lemma AddActivityStep(activities: seq<Option<Activity>>, i: nat)
    requires i < |activities|
    ensures DailyKm(activities[..i + 1]) == AddActivity(DailyKm(activities[..i]), activities[i])
  {
    assert activities[..i + 1][..i] == activities[..i];
  }

  /** An activity that does not count leaves the day map as it was. */
  lemma DailyKmSkip(activities: seq<Option<Activity>>, i: nat)
    requires i < |activities| && !Counted(activities[i])
    ensures DailyKm(activities[..i + 1]) == DailyKm(activities[..i])
  {
    AddActivityStep(activities, i);
  }

  /** An activity that counts adds its kilometres to its day's entry. */
  lemma DailyKmCounted(activities: seq<Option<Activity>>, i: nat, day: string, km: int)
    requires i < |activities| && Counted(activities[i])
    requires day == DayOf(activities[i]) && km == Km(activities[i].value)
    ensures DailyKm(activities[..i + 1]) == AddKm(DailyKm(activities[..i]), day, km)
  {
    AddActivityStep(activities, i);
  }

  /** The kilometres the activities of one day add up to, each truncated on its own. */
  function DayTotal(activities: seq<Option<Activity>>, date: string): int
  {
    if activities == [] then 0
    else
      var a := activities[|activities| - 1];
      DayTotal(activities[..|activities| - 1], date) + (if Counted(a) && DayOf(a) == date then Km(a.value) else 0)
  }

  /**
   * The day map holds exactly the days on which some activity counts, and each day's entry is the
   * sum of its activities' truncated kilometres, which is positive.
   */
  lemma {:induction false} DailyKmSpec(activities: seq<Option<Activity>>)
    ensures forall date :: DayTotal(activities, date) >= 0
    ensures forall date :: date in DailyKm(activities) <==> DayTotal(activities, date) > 0
    ensures forall date :: date in DailyKm(activities) ==> DailyKm(activities)[date] == DayTotal(activities, date)
  {
    if activities != [] {
      DailyKmSpec(activities[..|activities| - 1]);
    }
  }

  /** The day totals in the order a walk over the map happens to visit them. */
  method DailyDistancesOf(days: map<string, int>) returns (dailyDistances: seq<int>)
    ensures |dailyDistances| == |days.Keys|
    ensures forall k :: CountAtLeast(dailyDistances, k) == DaysAtLeast(days, k)
  {
    dailyDistances := [];
    var remaining := days.Keys;
    while remaining != {}
      invariant remaining <= days.Keys
      invariant |dailyDistances| + |remaining| == |days.Keys|
      invariant forall k :: CountAtLeast(dailyDistances, k) == |VisitedAtLeast(days, remaining, k)|
      decreases |remaining|
    {
      var date :| date in remaining;
      forall k
        ensures CountAtLeast(dailyDistances + [days[date]], k) == |VisitedAtLeast(days, remaining - {date}, k)|
      {
        assert (dailyDistances + [days[date]])[..|dailyDistances|] == dailyDistances;
        VisitOne(days, remaining, date, k);
      }
      dailyDistances := dailyDistances + [days[date]];
      remaining := remaining - {date};
    }
    forall k
      ensures VisitedAtLeast(days, {}, k) == set d | d in days && days[d] >= k
    {
    }
  }

  /** The days already visited (not in `remaining`) with at least `k` km. */
  function VisitedAtLeast(days: map<string, int>, remaining: set<string>, k: int): set<string>
  {
    set d | d in days && d !in remaining && days[d] >= k
  }

  lemma VisitOne(days: map<string, int>, remaining: set<string>, date: string, k: int)
    requires date in remaining && date in days
    ensures |VisitedAtLeast(days, remaining - {date}, k)|
         == |VisitedAtLeast(days, remaining, k)| + (if days[date] >= k then 1 else 0)
  {
    var before := VisitedAtLeast(days, remaining, k);
    if days[date] >= k {
      assert VisitedAtLeast(days, remaining - {date}, k) == before + {date};
    } else {
      assert VisitedAtLeast(days, remaining - {date}, k) == before;
    }
  }

  // ---------------------------------------------------------------- the statistic

  class EddingtonStatistic {
    const name: string
    var activities: seq<Option<Activity>>
    var eddingtonNumber: nat
    /** `daysWithAtLeastXKm[i]`: the number of days with at least i + 1 km. */
    var daysWithAtLeastXKm: seq<int>

    /** `NewEddingtonStatistic`: a missing list is the empty list; the number is computed at once. */
    constructor (activities: seq<Option<Activity>>)
      ensures name == "Eddington number" && this.activities == activities
      ensures IsEddingtonNumber(DailyKm(activities), eddingtonNumber)
      ensures IsHistogramOf(DailyKm(activities), daysWithAtLeastXKm)
    {
      name := "Eddington number";
      this.activities := activities;
      eddingtonNumber := 0;
      daysWithAtLeastXKm := [];
      new;
      var e := ProcessEddingtonNumber();
      eddingtonNumber := e;
    }

    /**
     * `processEddingtonNumber`: returns the Eddington number of the activities' day totals and
     * sets `daysWithAtLeastXKm` to their histogram.
     */
    method ProcessEddingtonNumber() returns (e: nat)
      modifies this
      ensures activities == old(activities) && eddingtonNumber == old(eddingtonNumber)
      ensures IsEddingtonNumber(DailyKm(activities), e)
      ensures IsHistogramOf(DailyKm(activities), daysWithAtLeastXKm)
    {
      if |activities| == 0 {
        daysWithAtLeastXKm := [];
        return 0;
      }
      var activeDaysMap: map<string, int> := map[];
      var acts := activities;
      for i := 0 to |acts|
        modifies {}
        invariant activeDaysMap == DailyKm(acts[..i])
      {
        var activity := acts[i];
        if activity.None? || activity.value.distance <= 0.0 {
          DailyKmSkip(acts, i);
          assert activeDaysMap == DailyKm(acts[..i + 1]);
          continue;
        }
        var date := ParseActivityDate(activity.value.startDateLocal);
        if date.Err? {
          DailyKmSkip(acts, i);
          assert activeDaysMap == DailyKm(acts[..i + 1]);
          continue;
        }
        var km := Trunc(activity.value.distance / 1000.0);
        if km > 0 {
          DailyKmCounted(acts, i, date.value, km);
          activeDaysMap := AddKm(activeDaysMap, date.value, km);
        } else {
          DailyKmSkip(acts, i);
          assert activeDaysMap == DailyKm(acts[..i + 1]);
        }
      }
      assert acts[..|acts|] == acts;
      DailyKmSpec(activities);
      if |activeDaysMap| == 0 {
        daysWithAtLeastXKm := [];
        assert activeDaysMap == map[];
        return 0;
      }
      var values := DailyDistancesOf(activeDaysMap);
      var dailyDistances := SortDescending(values);
      var n := EddingtonOfSorted(dailyDistances);
      BuildDaysWithAtLeastXKmArray(dailyDistances);
      e := n;
      SortedTotalsOfDays(activeDaysMap, values, dailyDistances, e, daysWithAtLeastXKm);
    }

    /**
     * `buildDaysWithAtLeastXKmArray`: counts the totals into buckets (capping at the first, largest,
     * one and skipping non-positive ones), then fills the histogram from the top with a running sum.
     */
    method BuildDaysWithAtLeastXKmArray(sortedDistances: seq<int>)
      modifies this
      ensures activities == old(activities) && eddingtonNumber == old(eddingtonNumber)
      ensures IsHistogram(sortedDistances, daysWithAtLeastXKm)
    {
      if |sortedDistances| == 0 {
        daysWithAtLeastXKm := [];
        return;
      }
      var maxDistance := sortedDistances[0];
      if maxDistance <= 0 {
        daysWithAtLeastXKm := [];
        return;
      }
      var counts := new int[maxDistance + 1](_ => 0);
      for i := 0 to |sortedDistances|
        modifies counts
        invariant forall v :: 1 <= v <= maxDistance ==> counts[v] == CountClamped(sortedDistances[..i], v, maxDistance)
      {
        var d := sortedDistances[i];
        assert sortedDistances[..i + 1][..i] == sortedDistances[..i];
        if d <= 0 {
          continue;
        }
        if d > maxDistance {
          d := maxDistance;
        }
        counts[d] := counts[d] + 1;
      }
      assert sortedDistances[..|sortedDistances|] == sortedDistances;
      var days := new int[maxDistance];
      var cumulative := 0;
      var km := maxDistance;
      while km >= 1
        modifies days
        invariant 0 <= km <= maxDistance
        invariant forall v :: 1 <= v <= maxDistance ==> counts[v] == CountClamped(sortedDistances, v, maxDistance)
        invariant cumulative == if km == maxDistance then 0 else CountAtLeast(sortedDistances, km + 1)
        invariant forall j :: km <= j < maxDistance ==> days[j] == CountAtLeast(sortedDistances, j + 1)
      {
        CountSplit(sortedDistances, km, maxDistance);
        cumulative := cumulative + counts[km];
        days[km - 1] := cumulative;
        km := km - 1;
      }
      daysWithAtLeastXKm := days[..];
    }
  }

  /**
   * What the scan and the histogram find on the sorted totals of the days holds of the days
   * themselves.
   */
  lemma SortedTotalsOfDays(days: map<string, int>, values: seq<int>, d: seq<int>, e: nat, hist: seq<int>)
    requires days != map[] && forall date :: date in days ==> days[date] > 0
    requires forall k :: CountAtLeast(values, k) == DaysAtLeast(days, k)
    requires multiset(d) == multiset(values) && forall i, j :: 0 <= i < j < |d| ==> d[i] >= d[j]
    requires IsEddingtonPrefix(d, e) && IsHistogram(d, hist)
    ensures IsEddingtonNumber(days, e) && IsHistogramOf(days, hist)
  {
    forall k
      ensures CountAtLeast(d, k) == DaysAtLeast(days, k)
    {
      CountPermutation(d, values, k);
    }
    EddingtonPrefixIsEddington(d, e);
    HistogramOfDays(days, d, hist);
  }

  lemma SomeDayReaches(days: map<string, int>, date: string, k: int)
    requires date in days && days[date] >= k
    ensures DaysAtLeast(days, k) >= 1
  {
    var reached := set d | d in days && days[d] >= k;
    assert reached == (reached - {date}) + {date};
  }

  /** The histogram of the sorted totals of a non-empty day map with positive totals is the histogram of its days. */
  lemma HistogramOfDays(days: map<string, int>, d: seq<int>, hist: seq<int>)
    requires days != map[] && forall date :: date in days ==> days[date] > 0
    requires forall i, j :: 0 <= i < j < |d| ==> d[i] >= d[j]
    requires forall k :: CountAtLeast(d, k) == DaysAtLeast(days, k)
    requires IsHistogram(d, hist)
    ensures IsHistogramOf(days, hist)
  {
    var date :| date in days;
    SomeDayReaches(days, date, 1);
    if d != [] {
      LargestCounts(d);
      if d[0] <= 0 {
        CountNone(d, 1) by {
          forall i | 0 <= i < |d|
            ensures d[i] < 1
          {
            if i > 0 {
              assert d[0] >= d[i];
            }
          }
        }
      }
    }
  }

  // ---------------------------------------------------------------- the unit test's cases

  /**
   * Day totals 10, 5, 7, 6, 8 and 3 km: sorted they are 10, 8, 7, 6, 5, 3, the Eddington number is 5
   * and the histogram is 6, 6, 6, 5, 5, 4, 3, 2, 1, 1.
   */
  lemma SixDaysEddington()
    ensures IsEddingtonPrefix([10, 8, 7, 6, 5, 3], 5)
    ensures IsEddingtonPrefix([15], 1)
  {
  }

  lemma SixDaysHistogram()
    ensures IsHistogram([10, 8, 7, 6, 5, 3], [6, 6, 6, 5, 5, 4, 3, 2, 1, 1])
  {
    var d := [10, 8, 7, 6, 5, 3];
    var hist := [6, 6, 6, 5, 5, 4, 3, 2, 1, 1];
    forall k | 1 <= k <= 10
      ensures hist[k - 1] == CountAtLeast(d, k)
    {
      CountsOfPrefix(d, hist[k - 1], k);
    }
  }

  /** When exactly the first m totals reach k, m totals reach k. */
  lemma CountsOfPrefix(d: seq<int>, m: nat, k: int)
    requires m <= |d| && (forall i :: 0 <= i < m ==> d[i] >= k) && (forall i :: m <= i < |d| ==> d[i] < k)
    ensures CountAtLeast(d, k) == m
  {
    CountSlices(d, m, k);
    CountAll(d[..m], k);
    CountNone(d[m..], k);
  }

  /** A 10 km and a 5 km activity on the same day make one day of 15 km, so the Eddington number is 1. */
  lemma SameDayExample(acts: seq<Option<Activity>>)
    requires |acts| == 2 && Counted(acts[0]) && Counted(acts[1]) && DayOf(acts[0]) == DayOf(acts[1])
    requires Km(acts[0].value) == 10 && Km(acts[1].value) == 5
    ensures DailyKm(acts) == map[DayOf(acts[0]) := 15]
  {
    var day := DayOf(acts[0]);
    FirstOfTwo(acts, day);
    DailyKmCounted(acts, 1, day, 5);
    AddKmSameDay(day, 10, 5);
    assert acts[..2] == acts;
  }

  lemma AddKmSameDay(day: string, x: int, y: int)
    ensures AddKm(map[day := x], day, y) == map[day := x + y]
  {
  }

  lemma FirstOfTwo(acts: seq<Option<Activity>>, day: string)
    requires |acts| == 2 && Counted(acts[0]) && day == DayOf(acts[0]) && Km(acts[0].value) == 10
    ensures DailyKm(acts[..1]) == map[day := 10]
  {
    DailyKmCounted(acts, 0, day, 10);
    assert acts[..0] == [];
  }
}
