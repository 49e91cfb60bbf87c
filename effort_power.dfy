/**
 * Best average power for a duration (`besteffortpower.go`): a two-pointer scan over the time
 * stream keeping a running sum of the watts in the window; the window with the largest sum wins.
 * Once a window is long enough both pointers advance, so windows slide rather than shrink.
 */
module BestEffortPower {
  import opened Wrappers
  import opened Numeric
  import opened Strava
  import opened Windows
  import opened Selection

  /**
   * What the scan needs of its streams: time at every distance index, an altitude series that is
   * present (the source reads its length) and covers the distances when not empty, and a watts
   * series that covers them when not empty.
   */
  predicate Fits(s: Stream)
  {
    |s.time| >= |s.distance| && s.altitude.Some?
    && (s.altitude.value != [] ==> |s.altitude.value| >= |s.distance|)
    && (s.watts.Some? && s.watts.value != [] ==> |s.watts.value| >= |s.distance|)
  }

  /** The scan runs only on a non-empty watts series. */
  predicate HasWatts(s: Stream)
  {
    s.watts.Some? && s.watts.value != []
  }

  /** The watts samples of a window, both ends included, summed. */
  function WindowSum(watts: seq<int>, w: Window): int
    requires w.start <= w.end < |watts|
  {
    SumRange(watts, w.start, w.end + 1)
  }

  function Sums(s: Stream, seconds: int, ws: seq<Window>): (r: seq<real>)
    requires Fits(s) && HasWatts(s) && ScanPrefix(TimeAxis(s), seconds as real, 1, ws)
    ensures |r| == |ws|
    ensures forall k :: 0 <= k < |ws| ==> ws[k].start <= ws[k].end < |s.distance| && r[k] == WindowSum(s.watts.value, ws[k]) as real
  {
    seq(|ws|, k requires 0 <= k < |ws| =>
      assert Evaluated(TimeAxis(s), seconds as real, Lo(ws, k, 1), k, ws[k].end);
      WindowSum(s.watts.value, ws[k]) as real)
  }

  /** The effort recorded for an accepted window: its distance span and its truncated mean power. */
  function EffortAt(short: ActivityShort, s: Stream, seconds: int, w: Window): (e: Effort)
    requires Fits(s) && HasWatts(s) && w.start <= w.end < |s.distance|
  {
    var altitude := s.altitude.value;
    Effort(s.distance[w.end] - s.distance[w.start], seconds,
           if |altitude| > 0 then altitude[w.end] - altitude[w.start] else 0.0,
           w.start, w.end, Quot(WindowSum(s.watts.value, w), w.end - w.start + 1) as real, short)
  }

  /** Among the evaluated windows, the first with the largest watts sum, if that is positive. */
  function Pick(short: ActivityShort, s: Stream, seconds: int, ws: seq<Window>): (r: Option<Effort>)
    requires Fits(s) && HasWatts(s) && ScanPrefix(TimeAxis(s), seconds as real, 1, ws)
  {
    match ArgMaxAbove(Sums(s, seconds, ws), Some(0.0))
    case None => None
    case Some(k) => Some(EffortAt(short, s, seconds, ws[k]))
  }

  /** The scan's `maxPower`: the largest positive window sum so far, 0 before any. */
  function MaxPower(s: Stream, seconds: int, ws: seq<Window>): int
    requires Fits(s) && HasWatts(s) && ScanPrefix(TimeAxis(s), seconds as real, 1, ws)
  {
    match ArgMaxAbove(Sums(s, seconds, ws), Some(0.0))
    case None => 0
    case Some(k) => WindowSum(s.watts.value, ws[k])
  }

  lemma SumsSnoc(s: Stream, seconds: int, ws: seq<Window>, end: nat)
    requires Fits(s) && HasWatts(s) && ScanPrefix(TimeAxis(s), seconds as real, 1, ws)
    requires Evaluated(TimeAxis(s), seconds as real, Lo(ws, |ws|, 1), |ws|, end)
    ensures ScanPrefix(TimeAxis(s), seconds as real, 1, ws + [Window(|ws|, end)])
    ensures Sums(s, seconds, ws + [Window(|ws|, end)])
         == Sums(s, seconds, ws) + [WindowSum(s.watts.value, Window(|ws|, end)) as real]
  {
    ScanPrefixAppend(TimeAxis(s), seconds as real, 1, ws, end);
    var ws' := ws + [Window(|ws|, end)];
    assert forall k :: 0 <= k < |ws| ==> ws'[k] == ws[k];
  }

  /**
   * The state of the scan at the head of its loop: the windows evaluated so far, the running sum
   * of the watts in [start, end), and the best so far as `Pick` and `MaxPower` describe it.
   */
  ghost predicate PowerScanning(short: ActivityShort, s: Stream, seconds: int, watts: seq<int>, ws: seq<Window>,
                                start: nat, end: nat, currentPower: int, maxPower: int, best: Option<Effort>)
    requires Fits(s) && HasWatts(s)
  {
    && watts == s.watts.value
    && Scanning(TimeAxis(s), seconds as real, 1, ws, start, end)
    && currentPower == SumRange(watts, start, end)
    && maxPower == MaxPower(s, seconds, ws)
    && best == Pick(short, s, seconds, ws)
  }

  /** The window is too short: the end pointer moves on and the running sum takes in its sample. */
  lemma SkipStep(short: ActivityShort, s: Stream, seconds: int, watts: seq<int>, ws: seq<Window>,
                 start: nat, end: nat, currentPower: int, maxPower: int, best: Option<Effort>)
    requires Fits(s) && HasWatts(s) && end < |s.distance|
    requires PowerScanning(short, s, seconds, watts, ws, start, end, currentPower, maxPower, best)
    requires s.time[end] - s.time[start] < seconds
    ensures end < |watts|
    ensures PowerScanning(short, s, seconds, watts, ws, start, end + 1, currentPower + watts[end], maxPower, best)
  {
    var axis := TimeAxis(s);
    assert axis[end] - axis[start] == (s.time[end] - s.time[start]) as real;
    ScanningSkip(axis, seconds as real, 1, ws, start, end);
  }

  /**
   * The window is long enough: it is evaluated, the best is replaced exactly when its sum exceeds
   * `maxPower`, and both pointers move on, the running sum giving up the start's sample.
   */
  lemma TakeStep(short: ActivityShort, s: Stream, seconds: int, watts: seq<int>, ws: seq<Window>,
                 start: nat, end: nat, currentPower: int, maxPower: int, best: Option<Effort>,
                 maxPower': int, best': Option<Effort>)
    requires Fits(s) && HasWatts(s) && end < |s.distance|
    requires PowerScanning(short, s, seconds, watts, ws, start, end, currentPower, maxPower, best)
    requires s.time[end] - s.time[start] >= seconds
    requires var sum := currentPower + watts[end];
      && maxPower' == (if sum > maxPower then sum else maxPower)
      && best' == if sum > maxPower then
           Some(Effort(s.distance[end] - s.distance[start], seconds,
                       if |s.altitude.value| > 0 then s.altitude.value[end] - s.altitude.value[start] else 0.0,
                       start, end, Quot(sum, end - start + 1) as real, short))
         else best
    ensures start <= end
    ensures PowerScanning(short, s, seconds, watts, ws + [Window(start, end)], start + 1, end + 1,
                          currentPower + watts[end] - watts[start], maxPower', best')
  {
    var axis := TimeAxis(s);
    assert axis[end] - axis[start] == (s.time[end] - s.time[start]) as real;
    ScanningTake(axis, seconds as real, 1, ws, start, end);
    SumRangeDropFirst(watts, start, end + 1);
    PickStep(short, s, seconds, ws, end);
  }

  /** One evaluated window: the best is replaced exactly when the window's sum exceeds `maxPower`. */
  lemma PickStep(short: ActivityShort, s: Stream, seconds: int, ws: seq<Window>, end: nat)
    requires Fits(s) && HasWatts(s) && ScanPrefix(TimeAxis(s), seconds as real, 1, ws)
    requires Evaluated(TimeAxis(s), seconds as real, Lo(ws, |ws|, 1), |ws|, end)
    ensures var w := Window(|ws|, end);
      var sum := WindowSum(s.watts.value, w);
      var taken := sum > MaxPower(s, seconds, ws);
      && ScanPrefix(TimeAxis(s), seconds as real, 1, ws + [w])
      && MaxPower(s, seconds, ws + [w]) == (if taken then sum else MaxPower(s, seconds, ws))
      && Pick(short, s, seconds, ws + [w]) == (if taken then Some(EffortAt(short, s, seconds, w)) else Pick(short, s, seconds, ws))
  {
    var w := Window(|ws|, end);
    SumsSnoc(s, seconds, ws, end);
    ArgMaxAboveSnoc(Sums(s, seconds, ws), WindowSum(s.watts.value, w) as real, Some(0.0));
    var ws' := ws + [w];
    assert forall k :: 0 <= k < |ws| ==> ws'[k] == ws[k];
  }

  /** The copy of the watts series the scan works on: zeros stay zeros, so it equals the series. */
  method CopyNonNullWatts(watts: seq<int>) returns (nonNullWatts: seq<int>)
    ensures nonNullWatts == watts
  {
    nonNullWatts := [];
    for i := 0 to |watts|
      invariant nonNullWatts == watts[..i]
    {
      var watt := watts[i];
      if watt == 0 {
        nonNullWatts := nonNullWatts + [0];
      } else {
        nonNullWatts := nonNullWatts + [watt];
      }
    }
  }

  /**
   * `bestPowerForTimeForTime`: nothing without a non-empty watts series; otherwise the scan, where
   * `scanned` lists the windows it evaluated and the result is the effort of the first of them
   * with the largest positive watts sum, or None when there is none.
   */
  method BestPowerForTimeForTime(id: int, name: string, activityType: string, s: Stream, seconds: int)
    returns (best: Option<Effort>, ghost scanned: seq<Window>)
    requires Fits(s)
    ensures !HasWatts(s) ==> best == None
    ensures HasWatts(s) ==> Scan(TimeAxis(s), seconds as real, 1, scanned)
    ensures HasWatts(s) ==> best == Pick(ActivityShort(id, name, TypeOrZero(activityType)), s, seconds, scanned)
  {
    scanned := [];
    if s.watts.None? || |s.watts.value| == 0 {
      return None, scanned;
    }
    var nonNullWatts := CopyNonNullWatts(s.watts.value);
    var short := ActivityShort(id, name, TypeOrZero(activityType));
    var axis := TimeAxis(s);
    var th := seconds as real;
    var altitudes := s.altitude.value;
    var idxStart, idxEnd, maxPower := 0, 0, 0;
    best := None;
    var currentPower := 0;
    ScanningInit(axis, th, 1);
    while idxEnd < |s.distance|
      invariant PowerScanning(short, s, seconds, nonNullWatts, scanned, idxStart, idxEnd, currentPower, maxPower, best)
      decreases 2 * |axis| - idxStart - idxEnd
    {
      var totalDistance := s.distance[idxEnd] - s.distance[idxStart];
      var totalAltitude := if |altitudes| > 0 then altitudes[idxEnd] - altitudes[idxStart] else 0.0;
      ghost var power0, maxPower0, best0 := currentPower, maxPower, best;
      currentPower := currentPower + nonNullWatts[idxEnd];
      var totalTime := s.time[idxEnd] - s.time[idxStart];
      if totalTime < seconds {
        SkipStep(short, s, seconds, nonNullWatts, scanned, idxStart, idxEnd, power0, maxPower, best);
        idxEnd := idxEnd + 1;
      } else {
        if currentPower > maxPower {
          maxPower := currentPower;
          var averagePower := Quot(currentPower, idxEnd - idxStart + 1);
          best := Some(Effort(totalDistance, seconds, totalAltitude, idxStart, idxEnd, averagePower as real, short));
        }
        TakeStep(short, s, seconds, nonNullWatts, scanned, idxStart, idxEnd, power0, maxPower0, best0, maxPower, best);
        currentPower := currentPower - nonNullWatts[idxStart];
        scanned := scanned + [Window(idxStart, idxEnd)];
        idxStart := idxStart + 1;
        idxEnd := idxEnd + 1;
      }
    }
    ScanningDone(axis, th, 1, scanned, idxStart);
  }

  /**
   * The effort picked has the largest watts sum of every evaluated window and a strictly larger
   * one than every window before it; there is none exactly when no window sum is positive.
   */
  lemma PickIsStrongest(short: ActivityShort, s: Stream, seconds: int, ws: seq<Window>)
    requires Fits(s) && HasWatts(s) && ScanPrefix(TimeAxis(s), seconds as real, 1, ws)
    ensures Pick(short, s, seconds, ws).None? <==>
      forall k :: 0 <= k < |ws| ==> WindowSum(s.watts.value, ws[k]) <= 0
    ensures Pick(short, s, seconds, ws).Some? ==>
      var e := Pick(short, s, seconds, ws).value;
      var best := WindowSum(s.watts.value, Window(e.idxStart, e.idxEnd));
      && e.idxStart < |ws| && ws[e.idxStart] == Window(e.idxStart, e.idxEnd) && best > 0
      && (forall k :: 0 <= k < |ws| ==> WindowSum(s.watts.value, ws[k]) <= best)
      && (forall k :: 0 <= k < e.idxStart ==> WindowSum(s.watts.value, ws[k]) < best)
  {
    var sums := Sums(s, seconds, ws);
    ArgMaxAboveSpec(sums, Some(0.0));
    match ArgMaxAbove(sums, Some(0.0))
    case None =>
    case Some(k) =>
      assert ScanPrefix(TimeAxis(s), seconds as real, 1, ws);
      assert ws[k].start == k;
  }

  /** A series of zero watts yields no effort: no window sum is positive. */
  lemma ZeroWattsNoEffort(short: ActivityShort, s: Stream, seconds: int, ws: seq<Window>)
    requires Fits(s) && HasWatts(s) && ScanPrefix(TimeAxis(s), seconds as real, 1, ws)
    requires forall i :: 0 <= i < |s.watts.value| ==> s.watts.value[i] == 0
    ensures Pick(short, s, seconds, ws).None?
  {
    forall k | 0 <= k < |ws|
      ensures WindowSum(s.watts.value, ws[k]) <= 0
    {
      assert Evaluated(TimeAxis(s), seconds as real, Lo(ws, k, 1), k, ws[k].end);
      SumRangeZeros(s.watts.value, ws[k].start, ws[k].end + 1);
    }
    PickIsStrongest(short, s, seconds, ws);
  }

  /** The effort's average power is the window's mean power rounded down, for non-negative watts. */
  lemma AveragePowerIsFlooredMean(short: ActivityShort, s: Stream, seconds: int, w: Window)
    requires Fits(s) && HasWatts(s) && w.start <= w.end < |s.distance|
    requires WindowSum(s.watts.value, w) >= 0
    ensures var n := w.end - w.start + 1;
      var p := EffortAt(short, s, seconds, w).averagePower;
      && p == (WindowSum(s.watts.value, w) / n) as real
      && p * n as real <= WindowSum(s.watts.value, w) as real < (p + 1.0) * n as real
  {
    var n := w.end - w.start + 1;
    var sum := WindowSum(s.watts.value, w);
    QuotFloor(sum, n);
    var q := sum / n;
    assert q * n <= sum < q * n + n;
    assert (q * n) as real == q as real * n as real;
    assert (q * n + n) as real == (q as real + 1.0) * n as real;
  }

  /** `BestPowerForTime`: nothing without a stream or with an empty altitude series, else the scan. */
  method BestPowerForTime(a: Activity, seconds: int) returns (r: Option<Effort>)
    requires a.stream.Some? ==> Fits(a.stream.value)
    ensures a.stream.None? || a.stream.value.altitude.value == [] ==> r == None
    ensures IsBestPowerEffort(a, seconds, r)
  {
    if a.stream.None? || |a.stream.value.altitude.value| == 0 {
      return None;
    }
    ghost var ws;
    r, ws := BestPowerForTimeForTime(a.id, a.name, a.activityType, a.stream.value, seconds);
    if HasWatts(a.stream.value) {
      assert Scan(TimeAxis(a.stream.value), seconds as real, 1, ws) && r == Pick(ShortOf(a), a.stream.value, seconds, ws);
    }
  }

  /** What `BestPowerForTime` returns for one activity. */
  ghost predicate IsBestPowerEffort(a: Activity, seconds: int, r: Option<Effort>)
    requires a.stream.Some? ==> Fits(a.stream.value)
  {
    if a.stream.None? || a.stream.value.altitude.value == [] || !HasWatts(a.stream.value) then r == None
    else
      exists ws :: Scan(TimeAxis(a.stream.value), seconds as real, 1, ws)
        && r == Pick(ShortOf(a), a.stream.value, seconds, ws)
  }

  /** Each activity has exactly one best power effort: the scan leaves no choice. */
  lemma BestPowerEffortUnique(a: Activity, seconds: int, r1: Option<Effort>, r2: Option<Effort>)
    requires a.stream.Some? ==> Fits(a.stream.value)
    requires IsBestPowerEffort(a, seconds, r1) && IsBestPowerEffort(a, seconds, r2)
    ensures r1 == r2
  {
    if a.stream.Some? && a.stream.value.altitude.value != [] && HasWatts(a.stream.value) {
      var axis := TimeAxis(a.stream.value);
      var ws1 :| Scan(axis, seconds as real, 1, ws1) && r1 == Pick(ShortOf(a), a.stream.value, seconds, ws1);
      var ws2 :| Scan(axis, seconds as real, 1, ws2) && r2 == Pick(ShortOf(a), a.stream.value, seconds, ws2);
      ScanUnique(axis, seconds as real, 1, ws1, ws2);
    }
  }

  function DistanceOf(e: Effort): real
  {
    e.distance
  }

  predicate AllFit(activities: seq<Activity>)
  {
    forall i :: 0 <= i < |activities| ==> activities[i].stream.Some? ==> Fits(activities[i].stream.value)
  }

  /**
   * `calculateBestPowerForTime`: over all activities, the power effort that covers the longest
   * distance (the first on ties), or None when no activity has one.
   */
  method CalculateBestPowerForTime(activities: seq<Activity>, seconds: int)
    returns (best: Option<Effort>, ghost efforts: seq<Option<Effort>>)
    requires AllFit(activities)
    ensures |efforts| == |activities|
    ensures forall i :: 0 <= i < |activities| ==> IsBestPowerEffort(activities[i], seconds, efforts[i])
    ensures best == FirstBest(efforts, DistanceOf)
  {
    best := None;
    efforts := [];
    for i := 0 to |activities|
      invariant |efforts| == i
      invariant forall j :: 0 <= j < i ==> IsBestPowerEffort(activities[j], seconds, efforts[j])
      invariant best == FirstBest(efforts, DistanceOf)
    {
      var effort := BestPowerForTime(activities[i], seconds);
      FirstBestSnoc(efforts, effort, DistanceOf);
      if effort.Some? && (best.None? || effort.value.distance > best.value.distance) {
        best := effort;
      }
      ghost var next := efforts + [effort];
      forall j | 0 <= j < i + 1
        ensures IsBestPowerEffort(activities[j], seconds, next[j])
      {
        if j < i {
          assert next[j] == efforts[j];
        }
      }
      efforts := next;
    }
  }

  datatype BestEffortPowerStatistic = BestEffortPowerStatistic(
    name: string, activities: seq<Activity>, seconds: int, bestActivityEffort: Option<Effort>)

  /** `NewBestEffortPowerStatistic`: panics (here: may not be called) for a duration of 10 s or less. */
  method NewBestEffortPowerStatistic(name: string, activities: seq<Activity>, seconds: int)
    returns (stat: BestEffortPowerStatistic, ghost efforts: seq<Option<Effort>>)
    requires seconds > 10 && AllFit(activities)
    ensures stat.name == name && stat.activities == activities && stat.seconds == seconds
    ensures |efforts| == |activities|
    ensures forall i :: 0 <= i < |activities| ==> IsBestPowerEffort(activities[i], seconds, efforts[i])
    ensures stat.bestActivityEffort == FirstBest(efforts, DistanceOf)
  {
    var best;
    best, efforts := CalculateBestPowerForTime(activities, seconds);
    stat := BestEffortPowerStatistic(name, activities, seconds, best);
  }
}
