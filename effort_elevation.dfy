/**
 * Best elevation gain for a distance (`bestelevationdistance.go`): for each activity, the stretch
 * of at least the target distance with the largest altitude difference between its ends; across
 * activities, the one with the largest difference.
 */
module BestElevationDistance {
  import opened Wrappers
  import opened Numeric
  import opened Strava
  import opened Windows
  import opened Selection
  import opened AveragePower
  import BestEffortDistance
  import BestEffortTime

  /**
   * What the scan for one activity needs of its streams: the source indexes time and altitude at
   * every distance index, and a non-empty watts series over every accepted window.
   */
  predicate Fits(s: Stream)
  {
    |s.time| >= |s.distance| && s.altitude.Some? && |s.altitude.value| >= |s.distance|
    && (s.watts.Some? && s.watts.value != [] ==> |s.watts.value| >= |s.distance|)
  }

  /** A window counts once its distance span is at least the target less half a metre. */
  function Threshold(distance: real): real
  {
    BestEffortDistance.Threshold(distance)
  }

  /** The altitude difference between the window's ends (a loss is negative). */
  function Gain(s: Stream, w: Window): real
    requires Fits(s) && w.start <= w.end < |s.distance|
  {
    s.altitude.value[w.end] - s.altitude.value[w.start]
  }

  function Gains(s: Stream, distance: real, ws: seq<Window>): (r: seq<real>)
    requires Fits(s) && ScanPrefix(s.distance, Threshold(distance), 0, ws)
    ensures |r| == |ws|
    ensures forall k :: 0 <= k < |ws| ==> ws[k].end < |s.distance| && r[k] == Gain(s, ws[k])
  {
    seq(|ws|, k requires 0 <= k < |ws| => Gain(s, ws[k]))
  }

  /** The effort recorded for an accepted window. */
  function EffortAt(short: ActivityShort, s: Stream, distance: real, w: Window): (e: Effort)
    requires Fits(s) && w.start <= w.end < |s.distance|
  {
    Effort(distance, s.time[w.end] - s.time[w.start], Gain(s, w),
           w.start, w.end, WindowPower(BestEffortTime.NonNullWatts(s.watts), w.start, w.end), short)
  }

  /** The effort the scan records for an accepted window, with the average power over it. */
  method NewEffort(short: ActivityShort, s: Stream, distance: real, w: Window) returns (e: Effort)
    requires Fits(s) && w.start <= w.end < |s.distance|
    ensures e == EffortAt(short, s, distance, w)
  {
    var watts := BestEffortTime.BuildNonNullWatts(s.watts);
    var averagePower := AveragePowerOf(watts, w.start, w.end);
    e := Effort(distance, s.time[w.end] - s.time[w.start], Gain(s, w), w.start, w.end, averagePower, short);
  }

  /**
   * The scan's `bestElevation`: the largest gain so far, None standing for the initial
   * -MaxFloat64, which every gain beats.
   */
  function BestGain(s: Stream, distance: real, ws: seq<Window>): Option<real>
    requires Fits(s) && ScanPrefix(s.distance, Threshold(distance), 0, ws)
  {
    var g := Gains(s, distance, ws);
    match ArgMaxAbove(g, None)
    case None => None
    case Some(k) => Some(g[k])
  }

  /** Among the evaluated windows, the first with the largest gain; None when there is none. */
  function Pick(short: ActivityShort, s: Stream, distance: real, ws: seq<Window>): (r: Option<Effort>)
    requires Fits(s) && ScanPrefix(s.distance, Threshold(distance), 0, ws)
  {
    match ArgMaxAbove(Gains(s, distance, ws), None)
    case None => None
    case Some(k) => Some(EffortAt(short, s, distance, ws[k]))
  }

  /** One evaluated window: the best is replaced exactly when its gain exceeds `bestElevation`. */
  lemma PickStep(short: ActivityShort, s: Stream, distance: real, ws: seq<Window>, end: nat)
    requires Fits(s) && ScanPrefix(s.distance, Threshold(distance), 0, ws)
    requires Evaluated(s.distance, Threshold(distance), Lo(ws, |ws|, 0), |ws|, end)
    ensures ScanPrefix(s.distance, Threshold(distance), 0, ws + [Window(|ws|, end)])
    ensures var g := Gain(s, Window(|ws|, end));
      var bg := BestGain(s, distance, ws);
      var taken := bg.None? || g > bg.value;
      && BestGain(s, distance, ws + [Window(|ws|, end)]) == (if taken then Some(g) else bg)
      && Pick(short, s, distance, ws + [Window(|ws|, end)])
         == (if taken then Some(EffortAt(short, s, distance, Window(|ws|, end))) else Pick(short, s, distance, ws))
  {
    var w := Window(|ws|, end);
    ScanPrefixAppend(s.distance, Threshold(distance), 0, ws, end);
    var ws' := ws + [w];
    assert forall k :: 0 <= k < |ws| ==> ws'[k] == ws[k];
    assert Gains(s, distance, ws') == Gains(s, distance, ws) + [Gain(s, w)];
    ArgMaxAboveSnoc(Gains(s, distance, ws), Gain(s, w), None);
  }

  /**
   * `bestElevationEffortForDistance`: the two-pointer scan over the distance stream. `scanned` is
   * the list of windows the scan evaluated; the result is the effort of the first of them with the
   * largest gain, or None when the scan evaluated nothing.
   */
  method BestElevationEffortForDistance(id: int, name: string, activityType: string, s: Stream, distance: real)
    returns (best: Option<Effort>, ghost scanned: seq<Window>)
    requires Fits(s) && distance > 0.5
    ensures Scan(s.distance, Threshold(distance), 0, scanned)
    ensures best == Pick(ActivityShort(id, name, TypeOrZero(activityType)), s, distance, scanned)
  {
    var short := ActivityShort(id, name, TypeOrZero(activityType));
    var axis := s.distance;
    var th := Threshold(distance);
    var idxStart, idxEnd := 0, 0;
    var bestElevation: Option<real> := None;
    best := None;
    scanned := [];
    ScanningInit(axis, th, 0);
    while idxEnd < |axis|
      invariant Scanning(axis, th, 0, scanned, idxStart, idxEnd)
      invariant bestElevation == BestGain(s, distance, scanned)
      invariant best == Pick(short, s, distance, scanned)
      decreases 2 * |axis| - idxStart - idxEnd
    {
      var totalDistance := axis[idxEnd] - axis[idxStart];
      if totalDistance < th {
        ScanningSkip(axis, th, 0, scanned, idxStart, idxEnd);
        idxEnd := idxEnd + 1;
      } else {
        var w := Window(idxStart, idxEnd);
        assert axis[idxStart] - axis[idxStart] == 0.0 < th;
        ScanningTake(axis, th, 0, scanned, idxStart, idxEnd);
        PickStep(short, s, distance, scanned, idxEnd);
        var totalAltitude := s.altitude.value[idxEnd] - s.altitude.value[idxStart];
        if bestElevation.None? || totalAltitude > bestElevation.value {
          bestElevation := Some(totalAltitude);
          var effort := NewEffort(short, s, distance, w);
          best := Some(effort);
        }
        scanned := scanned + [w];
        idxStart := idxStart + 1;
      }
    }
    ScanningDone(axis, th, 0, scanned, idxStart);
  }

  /**
   * The effort picked has the target distance, the duration and the gain of its window, and the
   * largest gain of all evaluated windows, strictly larger than every window before it; there is
   * none exactly when the scan evaluated nothing.
   */
  lemma PickIsSteepest(short: ActivityShort, s: Stream, distance: real, ws: seq<Window>)
    requires Fits(s) && ScanPrefix(s.distance, Threshold(distance), 0, ws)
    ensures var g := Gains(s, distance, ws);
      && (Pick(short, s, distance, ws).None? <==> ws == [])
      && (Pick(short, s, distance, ws).Some? ==>
           var e := Pick(short, s, distance, ws).value;
           && e.distance == distance && e.idxStart <= e.idxEnd < |s.distance|
           && e.seconds == s.time[e.idxEnd] - s.time[e.idxStart]
           && e.deltaAltitude == s.altitude.value[e.idxEnd] - s.altitude.value[e.idxStart]
           && (forall k :: 0 <= k < |ws| ==> g[k] <= e.deltaAltitude)
           && (forall k :: 0 <= k < e.idxStart ==> g[k] < e.deltaAltitude))
  {
    var g := Gains(s, distance, ws);
    ArgMaxAboveSpec(g, None);
    match ArgMaxAbove(g, None)
    case None =>
    case Some(k) =>
      assert Pick(short, s, distance, ws).value.idxStart == k;
  }

  /**
   * On a non-decreasing distance stream the scan finds an effort exactly when the whole stream
   * spans at least the target less half a metre.
   */
  lemma NoEffortIffTooShort(short: ActivityShort, s: Stream, distance: real, ws: seq<Window>)
    requires Fits(s) && Scan(s.distance, Threshold(distance), 0, ws)
    requires NonDecreasing(s.distance) && s.distance != []
    ensures Pick(short, s, distance, ws).None? <==> s.distance[|s.distance| - 1] - s.distance[0] < distance - 0.5
  {
    PickIsSteepest(short, s, distance, ws);
    ScanEmpty(s.distance, Threshold(distance), 0, ws);
  }

  predicate ActivityFits(a: Activity)
  {
    a.stream.Some? ==> a.stream.value.altitude.Some? && (a.stream.value.altitude.value != [] ==> Fits(a.stream.value))
  }

  /** What `BestElevationEffort` returns for one activity. */
  ghost predicate IsBestElevationEffort(a: Activity, distance: real, r: Option<Effort>)
    requires distance > 0.5 && ActivityFits(a)
  {
    if a.stream.None? || a.stream.value.altitude.value == [] then r == None
    else
      exists ws :: Scan(a.stream.value.distance, Threshold(distance), 0, ws)
        && r == Pick(ShortOf(a), a.stream.value, distance, ws)
  }

  /** Each activity has exactly one best effort: the scan leaves no choice. */
  lemma BestElevationEffortUnique(a: Activity, distance: real, r1: Option<Effort>, r2: Option<Effort>)
    requires distance > 0.5 && ActivityFits(a)
    requires IsBestElevationEffort(a, distance, r1) && IsBestElevationEffort(a, distance, r2)
    ensures r1 == r2
  {
    if a.stream.Some? && a.stream.value.altitude.value != [] {
      var th := Threshold(distance);
      var ws1 :| Scan(a.stream.value.distance, th, 0, ws1) && r1 == Pick(ShortOf(a), a.stream.value, distance, ws1);
      var ws2 :| Scan(a.stream.value.distance, th, 0, ws2) && r2 == Pick(ShortOf(a), a.stream.value, distance, ws2);
      ScanUnique(a.stream.value.distance, th, 0, ws1, ws2);
    }
  }

  /** `BestElevationEffort`: nothing without a stream or without altitude data, else the scan. */
  method BestElevationEffort(a: Activity, distance: real) returns (r: Option<Effort>)
    requires distance > 0.5 && ActivityFits(a)
    ensures a.stream.None? || a.stream.value.altitude.value == [] ==> r == None
    ensures IsBestElevationEffort(a, distance, r)
  {
    if a.stream.None? || |a.stream.value.altitude.value| == 0 {
      return None;
    }
    ghost var ws;
    r, ws := BestElevationEffortForDistance(a.id, a.name, a.activityType, a.stream.value, distance);
  }

  function DeltaAltitudeOf(e: Effort): real
  {
    e.deltaAltitude
  }

  /**
   * `findBestElevationEffort`: the effort with the largest altitude difference over all
   * activities, the first one on ties, or None when no activity has one.
   */
  method FindBestElevationEffort(activities: seq<Activity>, distance: real)
    returns (best: Option<Effort>, ghost efforts: seq<Option<Effort>>)
    requires distance > 0.5 && forall i :: 0 <= i < |activities| ==> ActivityFits(activities[i])
    ensures |efforts| == |activities|
    ensures forall i :: 0 <= i < |activities| ==> IsBestElevationEffort(activities[i], distance, efforts[i])
    ensures best == FirstBest(efforts, DeltaAltitudeOf)
  {
    best := None;
    efforts := [];
    for i := 0 to |activities|
      invariant |efforts| == i
      invariant forall j :: 0 <= j < i ==> IsBestElevationEffort(activities[j], distance, efforts[j])
      invariant best == FirstBest(efforts, DeltaAltitudeOf)
    {
      var effort := BestElevationEffort(activities[i], distance);
      FirstBestSnoc(efforts, effort, DeltaAltitudeOf);
      if effort.Some? && (best.None? || effort.value.deltaAltitude > best.value.deltaAltitude) {
        best := effort;
      }
      ghost var next := efforts + [effort];
      forall j | 0 <= j < i + 1
        ensures IsBestElevationEffort(activities[j], distance, next[j])
      {
        if j < i {
          assert next[j] == efforts[j];
        }
      }
      efforts := next;
    }
  }

  /** The effort found climbs at least as much as every activity's own best effort. */
  lemma FindBestIsSteepest(efforts: seq<Option<Effort>>, i: nat)
    requires i < |efforts| && efforts[i].Some?
    ensures FirstBest(efforts, DeltaAltitudeOf).Some?
    ensures FirstBest(efforts, DeltaAltitudeOf).value.deltaAltitude >= efforts[i].value.deltaAltitude
  {
    FirstBestIndexSpec(efforts, DeltaAltitudeOf);
  }

  datatype BestElevationDistanceStatistic = BestElevationDistanceStatistic(
    name: string, activities: seq<Activity>, distance: real, bestActivityEffort: Option<Effort>)

  /** `NewBestElevationDistanceStatistic`: panics (here: may not be called) for a target of 100 m or less. */
  method NewBestElevationDistanceStatistic(name: string, activities: seq<Activity>, distance: real)
    returns (stat: BestElevationDistanceStatistic, ghost efforts: seq<Option<Effort>>)
    requires distance > 100.0
    requires forall i :: 0 <= i < |activities| ==> ActivityFits(activities[i])
    ensures stat.name == name && stat.activities == activities && stat.distance == distance
    ensures |efforts| == |activities|
    ensures forall i :: 0 <= i < |activities| ==> IsBestElevationEffort(activities[i], distance, efforts[i])
    ensures stat.bestActivityEffort == FirstBest(efforts, DeltaAltitudeOf)
  {
    var best;
    best, efforts := FindBestElevationEffort(activities, distance);
    stat := BestElevationDistanceStatistic(name, activities, distance, best);
  }
}
