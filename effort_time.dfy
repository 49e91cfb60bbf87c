/**
 * Best distance for a duration (`bestefforttime.go`): for each activity, the stretch of at least the
 * target number of seconds whose distance, scaled to exactly that duration, is the longest; across
 * activities, the longest one.
 */
module BestEffortTime {
  import opened Wrappers
  import opened Numeric
  import opened Strava
  import opened Windows
  import opened Selection
  import opened AveragePower

  /**
   * What the scan for one activity needs of its streams: the source indexes time and altitude at
   * every distance index, and a non-empty watts series over every window.
   */
  predicate Fits(s: Stream)
  {
    |s.time| >= |s.distance| && s.altitude.Some? && |s.altitude.value| >= |s.distance|
    && (s.watts.Some? && s.watts.value != [] ==> |s.watts.value| >= |s.distance|)
  }

  /**
   * `buildNonNullWatts`: no samples for a missing or empty watts series, else a copy of it as
   * floating-point values.
   */
  method BuildNonNullWatts(watts: Option<seq<int>>) returns (r: seq<real>)
    ensures watts.None? || watts.value == [] ==> r == []
    ensures watts.Some? && watts.value != [] ==> r == IntsToReals(watts.value)
  {
    r := [];
    if watts.Some? && |watts.value| > 0 {
      var data := watts.value;
      var i := 0;
      while i < |data|
        invariant 0 <= i <= |data|
        invariant |r| == i && forall k :: 0 <= k < i ==> r[k] == data[k] as real
      {
        var watt := data[i];
        if watt == 0 {
          r := r + [0.0];
        } else {
          r := r + [watt as real];
        }
        i := i + 1;
      }
    }
  }

  /** The series `BuildNonNullWatts` returns. */
  function NonNullWatts(watts: Option<seq<int>>): seq<real>
  {
    if watts.None? || watts.value == [] then [] else IntsToReals(watts.value)
  }

  /** The distance the window would cover in exactly `seconds`: span / duration * seconds. */
  function EstimatedDistance(s: Stream, seconds: int, w: Window): real
    requires Fits(s) && seconds > 0 && w.start <= w.end < |s.distance|
    requires Reaches(TimeAxis(s), seconds as real, w.start, w.end)
  {
    (s.distance[w.end] - s.distance[w.start]) / (s.time[w.end] - s.time[w.start]) as real * seconds as real
  }

  function Estimates(s: Stream, seconds: int, ws: seq<Window>): (r: seq<real>)
    requires Fits(s) && seconds > 0 && ScanPrefix(TimeAxis(s), seconds as real, 0, ws)
    ensures |r| == |ws|
  {
    seq(|ws|, k requires 0 <= k < |ws| =>
      assert Evaluated(TimeAxis(s), seconds as real, Lo(ws, k, 0), k, ws[k].end);
      EstimatedDistance(s, seconds, ws[k]))
  }

  /** The effort recorded for an accepted window. */
  function EffortAt(short: ActivityShort, s: Stream, seconds: int, w: Window): (e: Effort)
    requires Fits(s) && seconds > 0 && w.start <= w.end < |s.distance|
    requires Reaches(TimeAxis(s), seconds as real, w.start, w.end)
  {
    Effort(EstimatedDistance(s, seconds, w), seconds, s.altitude.value[w.end] - s.altitude.value[w.start],
           w.start, w.end, WindowPower(NonNullWatts(s.watts), w.start, w.end), short)
  }

  /** The effort the scan records for an accepted window, with the average power over it. */
  method NewEffort(short: ActivityShort, s: Stream, nonNullWatts: seq<real>, seconds: int, w: Window, maxDist: real)
    returns (e: Effort)
    requires Fits(s) && seconds > 0 && w.start <= w.end < |s.distance|
    requires Reaches(TimeAxis(s), seconds as real, w.start, w.end)
    requires nonNullWatts == NonNullWatts(s.watts) && maxDist == EstimatedDistance(s, seconds, w)
    ensures e == EffortAt(short, s, seconds, w)
  {
    var averagePower := AveragePowerOf(nonNullWatts, w.start, w.end);
    e := Effort(maxDist, seconds, s.altitude.value[w.end] - s.altitude.value[w.start],
                w.start, w.end, averagePower, short);
  }

  /** Among the evaluated windows, the first with the longest estimated distance, if that is positive. */
  function Pick(short: ActivityShort, s: Stream, seconds: int, ws: seq<Window>): (r: Option<Effort>)
    requires Fits(s) && seconds > 0 && ScanPrefix(TimeAxis(s), seconds as real, 0, ws)
  {
    match ArgMaxAbove(Estimates(s, seconds, ws), Some(0.0))
    case None => None
    case Some(k) =>
      assert Evaluated(TimeAxis(s), seconds as real, Lo(ws, k, 0), k, ws[k].end);
      Some(EffortAt(short, s, seconds, ws[k]))
  }

  /** The scan's `maxDist`: the longest positive estimate so far, 0 before any. */
  function MaxDist(s: Stream, seconds: int, ws: seq<Window>): real
    requires Fits(s) && seconds > 0 && ScanPrefix(TimeAxis(s), seconds as real, 0, ws)
  {
    var est := Estimates(s, seconds, ws);
    ArgMaxAboveSpec(est, Some(0.0));
    match ArgMaxAbove(est, Some(0.0))
    case None => 0.0
    case Some(k) => est[k]
  }

  lemma EstimatesSnoc(s: Stream, seconds: int, ws: seq<Window>, end: nat)
    requires Fits(s) && seconds > 0 && ScanPrefix(TimeAxis(s), seconds as real, 0, ws)
    requires Evaluated(TimeAxis(s), seconds as real, Lo(ws, |ws|, 0), |ws|, end)
    ensures ScanPrefix(TimeAxis(s), seconds as real, 0, ws + [Window(|ws|, end)])
    ensures Estimates(s, seconds, ws + [Window(|ws|, end)])
         == Estimates(s, seconds, ws) + [EstimatedDistance(s, seconds, Window(|ws|, end))]
  {
    ScanPrefixAppend(TimeAxis(s), seconds as real, 0, ws, end);
    var ws' := ws + [Window(|ws|, end)];
    assert forall k :: 0 <= k < |ws| ==> ws'[k] == ws[k];
  }

  /** One evaluated window: the best is replaced exactly when its estimate exceeds `maxDist`. */
  lemma PickStep(short: ActivityShort, s: Stream, seconds: int, ws: seq<Window>, end: nat)
    requires Fits(s) && seconds > 0 && ScanPrefix(TimeAxis(s), seconds as real, 0, ws)
    requires Evaluated(TimeAxis(s), seconds as real, Lo(ws, |ws|, 0), |ws|, end)
    ensures ScanPrefix(TimeAxis(s), seconds as real, 0, ws + [Window(|ws|, end)])
    ensures var est := EstimatedDistance(s, seconds, Window(|ws|, end));
      var taken := est > MaxDist(s, seconds, ws);
      && MaxDist(s, seconds, ws + [Window(|ws|, end)]) == (if taken then est else MaxDist(s, seconds, ws))
      && Pick(short, s, seconds, ws + [Window(|ws|, end)])
         == (if taken then Some(EffortAt(short, s, seconds, Window(|ws|, end))) else Pick(short, s, seconds, ws))
  {
    var w := Window(|ws|, end);
    EstimatesSnoc(s, seconds, ws, end);
    ArgMaxAboveSnoc(Estimates(s, seconds, ws), EstimatedDistance(s, seconds, w), Some(0.0));
    var ws' := ws + [w];
    assert forall k :: 0 <= k < |ws| ==> ws'[k] == ws[k];
  }

  /**
   * The effort picked covers at least as much estimated distance as every evaluated window, and
   * strictly more than every window before it; there is none exactly when no estimate is positive.
   */
  lemma PickIsLongest(short: ActivityShort, s: Stream, seconds: int, ws: seq<Window>)
    requires Fits(s) && seconds > 0 && ScanPrefix(TimeAxis(s), seconds as real, 0, ws)
    ensures var est := Estimates(s, seconds, ws);
      && (Pick(short, s, seconds, ws).None? <==> forall k :: 0 <= k < |ws| ==> est[k] <= 0.0)
      && (Pick(short, s, seconds, ws).Some? ==>
           var e := Pick(short, s, seconds, ws).value;
           && e.distance > 0.0 && e.seconds == seconds && e.idxStart <= e.idxEnd < |s.distance|
           && (forall k :: 0 <= k < |ws| ==> est[k] <= e.distance)
           && (forall k :: 0 <= k < e.idxStart ==> est[k] < e.distance))
  {
    var est := Estimates(s, seconds, ws);
    ArgMaxAboveSpec(est, Some(0.0));
    match ArgMaxAbove(est, Some(0.0))
    case None =>
    case Some(k) =>
      assert Evaluated(TimeAxis(s), seconds as real, Lo(ws, k, 0), k, ws[k].end);
      assert Pick(short, s, seconds, ws).value.idxStart == k;
  }

  /** The scan evaluates the window [start, end] once its duration reaches the target. */
  lemma TakeStep(short: ActivityShort, s: Stream, seconds: int, ws: seq<Window>, start: nat, end: nat)
    requires Fits(s) && seconds > 0 && end < |s.distance|
    requires Scanning(TimeAxis(s), seconds as real, 0, ws, start, end)
    requires s.time[end] - s.time[start] >= seconds
    ensures start < end && Reaches(TimeAxis(s), seconds as real, start, end)
    ensures Scanning(TimeAxis(s), seconds as real, 0, ws + [Window(start, end)], start + 1, end)
    ensures var est := EstimatedDistance(s, seconds, Window(start, end));
      var taken := est > MaxDist(s, seconds, ws);
      && MaxDist(s, seconds, ws + [Window(start, end)]) == (if taken then est else MaxDist(s, seconds, ws))
      && Pick(short, s, seconds, ws + [Window(start, end)])
         == (if taken then Some(EffortAt(short, s, seconds, Window(start, end))) else Pick(short, s, seconds, ws))
  {
    var axis := TimeAxis(s);
    assert axis[end] - axis[start] == (s.time[end] - s.time[start]) as real;
    assert s.time[start] - s.time[start] == 0 < seconds;
    ScanningTake(axis, seconds as real, 0, ws, start, end);
    PickStep(short, s, seconds, ws, end);
  }

  /**
   * `BestDistanceForTime`: the two-pointer scan over the time stream. `scanned` is the list of
   * windows the scan evaluated; the result is the effort of the first of them with the longest
   * positive estimated distance, or None when there is none.
   */
  method BestDistanceForTime(id: int, name: string, activityType: string, s: Stream, seconds: int)
    returns (best: Option<Effort>, ghost scanned: seq<Window>)
    requires Fits(s) && seconds > 0
    ensures Scan(TimeAxis(s), seconds as real, 0, scanned)
    ensures best == Pick(ActivityShort(id, name, TypeOrZero(activityType)), s, seconds, scanned)
  {
    var short := ActivityShort(id, name, TypeOrZero(activityType));
    var axis := TimeAxis(s);
    var th := seconds as real;
    var idxStart, idxEnd := 0, 0;
    var maxDist := 0.0;
    best := None;
    scanned := [];
    var nonNullWatts := BuildNonNullWatts(s.watts);
    assert nonNullWatts == NonNullWatts(s.watts);
    ScanningInit(axis, th, 0);
    while idxEnd < |s.distance|
      invariant Scanning(axis, th, 0, scanned, idxStart, idxEnd)
      invariant maxDist == MaxDist(s, seconds, scanned)
      invariant best == Pick(short, s, seconds, scanned)
      decreases 2 * |axis| - idxStart - idxEnd
    {
      var totalTime := s.time[idxEnd] - s.time[idxStart];
      assert axis[idxEnd] - axis[idxStart] == totalTime as real;
      if totalTime < seconds {
        ScanningSkip(axis, th, 0, scanned, idxStart, idxEnd);
        idxEnd := idxEnd + 1;
      } else {
        var w := Window(idxStart, idxEnd);
        TakeStep(short, s, seconds, scanned, idxStart, idxEnd);
        var estimated := EstimatedDistance(s, seconds, w);
        if estimated > maxDist {
          maxDist := estimated;
          var effort := NewEffort(short, s, nonNullWatts, seconds, w, maxDist);
          best := Some(effort);
        }
        scanned := scanned + [w];
        idxStart := idxStart + 1;
      }
    }
    ScanningDone(axis, th, 0, scanned, idxStart);
  }

  predicate ActivityFits(a: Activity)
  {
    a.stream.Some? && a.stream.value.altitude.Some? ==> Fits(a.stream.value)
  }

  /** What `BestDistanceEffort` returns for one activity. */
  ghost predicate IsBestDistanceEffort(a: Activity, seconds: int, r: Option<Effort>)
    requires seconds > 0 && ActivityFits(a)
  {
    if a.stream.None? || a.stream.value.altitude.None? then r == None
    else
      exists ws :: Scan(TimeAxis(a.stream.value), seconds as real, 0, ws)
        && r == Pick(ShortOf(a), a.stream.value, seconds, ws)
  }

  /** Each activity has exactly one best effort: the scan leaves no choice. */
  lemma BestDistanceEffortUnique(a: Activity, seconds: int, r1: Option<Effort>, r2: Option<Effort>)
    requires seconds > 0 && ActivityFits(a)
    requires IsBestDistanceEffort(a, seconds, r1) && IsBestDistanceEffort(a, seconds, r2)
    ensures r1 == r2
  {
    if a.stream.Some? && a.stream.value.altitude.Some? {
      var axis := TimeAxis(a.stream.value);
      var ws1 :| Scan(axis, seconds as real, 0, ws1) && r1 == Pick(ShortOf(a), a.stream.value, seconds, ws1);
      var ws2 :| Scan(axis, seconds as real, 0, ws2) && r2 == Pick(ShortOf(a), a.stream.value, seconds, ws2);
      ScanUnique(axis, seconds as real, 0, ws1, ws2);
    }
  }

  /** `BestDistanceEffort`: nothing without a stream or without an altitude series, else the scan. */
  method BestDistanceEffort(a: Activity, seconds: int) returns (r: Option<Effort>)
    requires seconds > 0 && ActivityFits(a)
    ensures a.stream.None? || a.stream.value.altitude.None? ==> r == None
    ensures IsBestDistanceEffort(a, seconds, r)
  {
    if a.stream.None? || a.stream.value.altitude.None? {
      return None;
    }
    ghost var ws;
    r, ws := BestDistanceForTime(a.id, a.name, a.activityType, a.stream.value, seconds);
    assert Scan(TimeAxis(a.stream.value), seconds as real, 0, ws) && r == Pick(ShortOf(a), a.stream.value, seconds, ws);
  }

  function DistanceOf(e: Effort): real
  {
    e.distance
  }

  /**
   * `findBestDistanceEffortForTime`: the effort with the longest distance over all activities, the
   * first one on ties, or None when no activity has one.
   */
  method FindBestDistanceEffortForTime(activities: seq<Activity>, seconds: int)
    returns (best: Option<Effort>, ghost efforts: seq<Option<Effort>>)
    requires seconds > 0 && forall i :: 0 <= i < |activities| ==> ActivityFits(activities[i])
    ensures |efforts| == |activities|
    ensures forall i :: 0 <= i < |activities| ==> IsBestDistanceEffort(activities[i], seconds, efforts[i])
    ensures best == FirstBest(efforts, DistanceOf)
  {
    best := None;
    efforts := [];
    for i := 0 to |activities|
      invariant |efforts| == i
      invariant forall j :: 0 <= j < i ==> IsBestDistanceEffort(activities[j], seconds, efforts[j])
      invariant best == FirstBest(efforts, DistanceOf)
    {
      var effort := BestDistanceEffort(activities[i], seconds);
      FirstBestSnoc(efforts, effort, DistanceOf);
      if effort.Some? && (best.None? || effort.value.distance > best.value.distance) {
        best := effort;
      }
      ghost var next := efforts + [effort];
      forall j | 0 <= j < i + 1
        ensures IsBestDistanceEffort(activities[j], seconds, next[j])
      {
        if j < i {
          assert next[j] == efforts[j];
        }
      }
      efforts := next;
    }
  }

  /** The longest effort found covers at least the distance of every activity's effort. */
  lemma FindBestIsLongest(efforts: seq<Option<Effort>>, i: nat)
    requires i < |efforts| && efforts[i].Some?
    ensures FirstBest(efforts, DistanceOf).Some?
    ensures FirstBest(efforts, DistanceOf).value.distance >= efforts[i].value.distance
  {
    FirstBestIndexSpec(efforts, DistanceOf);
  }

  datatype BestEffortTimeStatistic = BestEffortTimeStatistic(
    name: string, activities: seq<Activity>, seconds: int, bestActivityEffort: Option<Effort>)

  /** `NewBestEffortTimeStatistic`: the statistic over the activities' longest efforts. */
  method NewBestEffortTimeStatistic(name: string, activities: seq<Activity>, seconds: int)
    returns (stat: BestEffortTimeStatistic, ghost efforts: seq<Option<Effort>>)
    requires seconds > 0
    requires forall i :: 0 <= i < |activities| ==> ActivityFits(activities[i])
    ensures stat.name == name && stat.activities == activities && stat.seconds == seconds
    ensures |efforts| == |activities|
    ensures forall i :: 0 <= i < |activities| ==> IsBestDistanceEffort(activities[i], seconds, efforts[i])
    ensures stat.bestActivityEffort == FirstBest(efforts, DistanceOf)
  {
    var best;
    best, efforts := FindBestDistanceEffortForTime(activities, seconds);
    stat := BestEffortTimeStatistic(name, activities, seconds, best);
  }
}
