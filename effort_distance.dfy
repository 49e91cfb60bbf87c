/**
 * Best time for a distance (`besteffortdistance.go`): for each activity, the fastest stretch of at
 * least the target distance, scaled to exactly that distance; across activities, the fastest one.
 */
module BestEffortDistance {
  import opened Wrappers
  import opened Numeric
  import opened Strava
  import opened Windows
  import opened Selection
  import opened AveragePower

  /**
   * What the scan for one activity needs of its streams: the time stream and, when there is one, the
   * power stream are indexed alongside the distance stream without checks. The power stream may be
   * absent.
   */
  predicate Fits(s: Stream)
  {
    |s.time| >= |s.distance| && s.altitude.Some? && (s.watts.Some? ==> |s.watts.value| >= |s.distance|)
  }

  /**
   * How `bestActivityEffortForDistance` ends: it returns an effort or none, or it panics on the nil
   * power stream of an activity recorded without a power meter.
   */
  datatype Outcome = Returned(effort: Option<Effort>) | Panicked

  /** A window counts once its distance span is at least the target less half a metre. */
  function Threshold(distance: real): real
  {
    distance - 0.5
  }

  /** The time the window would take for exactly `distance`: distance / span * time span. */
  function EstimatedTime(s: Stream, distance: real, w: Window): (t: real)
    requires Fits(s) && distance > 0.5 && w.start <= w.end < |s.distance|
    requires Reaches(s.distance, Threshold(distance), w.start, w.end)
  {
    distance / (s.distance[w.end] - s.distance[w.start]) * (s.time[w.end] - s.time[w.start]) as real
  }

  function Estimates(s: Stream, distance: real, ws: seq<Window>): (r: seq<real>)
    requires Fits(s) && distance > 0.5 && ScanPrefix(s.distance, Threshold(distance), 0, ws)
    ensures |r| == |ws|
  {
    seq(|ws|, k requires 0 <= k < |ws| =>
      assert Evaluated(s.distance, Threshold(distance), Lo(ws, k, 0), k, ws[k].end);
      EstimatedTime(s, distance, ws[k]))
  }

  /** Altitude gained over the window, or 0 when the altitude series does not cover it. */
  function DeltaAltitude(altitude: seq<real>, w: Window): real
  {
    if w.end < |altitude| && w.start < |altitude| then altitude[w.end] - altitude[w.start] else 0.0
  }

  /** `average(nonNullWatts.Data[idxStart : idxEnd+1])`: the mean power over the window. */
  function WattsMean(watts: seq<int>, w: Window): real
    requires w.start <= w.end < |watts|
  {
    Mean(IntsToReals(watts[w.start..w.end + 1]))
  }

  /** The effort recorded for an accepted window, with the average power the caller computed. */
  function EffortAt(short: ActivityShort, s: Stream, distance: real, w: Window, power: real): (e: Effort)
    requires Fits(s) && distance > 0.5 && w.start <= w.end < |s.distance|
    requires Reaches(s.distance, Threshold(distance), w.start, w.end)
  {
    Effort(distance, Trunc(EstimatedTime(s, distance, w)), DeltaAltitude(s.altitude.value, w),
           w.start, w.end, power, short)
  }

  /**
   * Among the evaluated windows, the first with the smallest estimated time above one second. When
   * there is such a window and no power stream, the scan panicked at the first window it accepted.
   */
  function Pick(short: ActivityShort, s: Stream, distance: real, ws: seq<Window>): (r: Outcome)
    requires Fits(s) && distance > 0.5 && ScanPrefix(s.distance, Threshold(distance), 0, ws)
  {
    match ArgMinAbove(Estimates(s, distance, ws), 1.0)
    case None => Returned(None)
    case Some(k) =>
      assert Evaluated(s.distance, Threshold(distance), Lo(ws, k, 0), k, ws[k].end);
      if s.watts.None? then Panicked
      else Returned(Some(EffortAt(short, s, distance, ws[k], WattsMean(s.watts.value, ws[k]))))
  }

  function BestTime(s: Stream, distance: real, ws: seq<Window>): Option<real>
    requires Fits(s) && distance > 0.5 && ScanPrefix(s.distance, Threshold(distance), 0, ws)
  {
    var est := Estimates(s, distance, ws);
    match ArgMinAbove(est, 1.0)
    case None => None
    case Some(k) => Some(est[k])
  }

  lemma EstimatesSnoc(s: Stream, distance: real, ws: seq<Window>, end: nat)
    requires Fits(s) && distance > 0.5 && ScanPrefix(s.distance, Threshold(distance), 0, ws)
    requires Evaluated(s.distance, Threshold(distance), Lo(ws, |ws|, 0), |ws|, end)
    ensures ScanPrefix(s.distance, Threshold(distance), 0, ws + [Window(|ws|, end)])
    ensures Estimates(s, distance, ws + [Window(|ws|, end)])
         == Estimates(s, distance, ws) + [EstimatedTime(s, distance, Window(|ws|, end))]
  {
    ScanPrefixAppend(s.distance, Threshold(distance), 0, ws, end);
    var ws' := ws + [Window(|ws|, end)];
    assert forall k :: 0 <= k < |ws| ==> ws'[k] == ws[k];
  }

  /** One evaluated window: the scan's list grows by it and the best is replaced exactly when the code replaces it. */
  lemma PickStep(short: ActivityShort, s: Stream, distance: real, ws: seq<Window>, end: nat)
    requires Fits(s) && distance > 0.5 && ScanPrefix(s.distance, Threshold(distance), 0, ws)
    requires Evaluated(s.distance, Threshold(distance), Lo(ws, |ws|, 0), |ws|, end)
    ensures ScanPrefix(s.distance, Threshold(distance), 0, ws + [Window(|ws|, end)])
    ensures Lo(ws + [Window(|ws|, end)], |ws| + 1, 0) == end
    ensures var est := EstimatedTime(s, distance, Window(|ws|, end));
      var bt := BestTime(s, distance, ws);
      var taken := (bt.None? || est < bt.value) && est > 1.0;
      && BestTime(s, distance, ws + [Window(|ws|, end)]) == (if taken then Some(est) else bt)
      && Pick(short, s, distance, ws + [Window(|ws|, end)])
         == (if !taken then Pick(short, s, distance, ws)
             else if s.watts.None? then Panicked
             else Returned(Some(EffortAt(short, s, distance, Window(|ws|, end), WattsMean(s.watts.value, Window(|ws|, end))))))
  {
    var w := Window(|ws|, end);
    EstimatesSnoc(s, distance, ws, end);
    ScanPrefixAppend(s.distance, Threshold(distance), 0, ws, end);
    ArgMinAboveSnoc(Estimates(s, distance, ws), EstimatedTime(s, distance, w), 1.0);
    var ws' := ws + [w];
    assert forall k :: 0 <= k < |ws| ==> ws'[k] == ws[k];
  }

  /**
   * `bestActivityEffortForDistance`: the two-pointer scan over the distance stream. `scanned` is the
   * list of windows the scan evaluated; the result is the effort of the first of them with the
   * smallest estimated time above one second, or None when no window qualifies. Without a power
   * stream the scan panics at the first window it accepts, having evaluated only part of the list.
   */
  method BestActivityEffortForDistance(id: int, name: string, activityType: string, s: Stream, distance: real)
    returns (r: Outcome, ghost scanned: seq<Window>)
    requires Fits(s) && distance > 0.5
    ensures ScanPrefix(s.distance, Threshold(distance), 0, scanned)
    ensures r == Pick(ActivityShort(id, name, TypeOrZero(activityType)), s, distance, scanned)
    ensures r.Returned? ==> Scan(s.distance, Threshold(distance), 0, scanned)
  {
    var short := ActivityShort(id, name, TypeOrZero(activityType));
    var axis := s.distance;
    var th := Threshold(distance);
    var idxStart, idxEnd := 0, 0;
    var bestTime: Option<real> := None;
    var best: Option<Effort> := None;
    scanned := [];
    ScanningInit(axis, th, 0);
    while idxEnd < |axis|
      invariant Scanning(axis, th, 0, scanned, idxStart, idxEnd)
      invariant bestTime == BestTime(s, distance, scanned)
      invariant Pick(short, s, distance, scanned) == Returned(best)
      decreases 2 * |axis| - idxStart - idxEnd
    {
      var totalDistance := axis[idxEnd] - axis[idxStart];
      if totalDistance < th {
        ScanningSkip(axis, th, 0, scanned, idxStart, idxEnd);
        idxEnd := idxEnd + 1;
      } else {
        var w := Window(idxStart, idxEnd);
        assert axis[idxStart] - axis[idxStart] == 0.0 < th;
        ScanningTake(axis, th, 0, scanned, idxStart, idxEnd);
        PickStep(short, s, distance, scanned, idxEnd);
        var estimated := EstimatedTime(s, distance, w);
        if (bestTime.None? || estimated < bestTime.value) && estimated > 1.0 {
          bestTime := Some(estimated);
          if s.watts.None? {
            // `nonNullWatts.Data` dereferences the nil power stream
            scanned := scanned + [w];
            return Panicked, scanned;
          }
          var averagePower := WattsMean(s.watts.value, w);
          best := Some(EffortAt(short, s, distance, w, averagePower));
        }
        scanned := scanned + [w];
        idxStart := idxStart + 1;
      }
    }
    ScanningDone(axis, th, 0, scanned, idxStart);
    r := Returned(best);
  }

  /**
   * A panic in a scan in progress is the complete scan's outcome too: the complete scan evaluates the
   * same windows first, so it accepts a window as well.
   */
  lemma PanicPersists(short: ActivityShort, s: Stream, distance: real, prefix: seq<Window>, ws: seq<Window>)
    requires Fits(s) && distance > 0.5
    requires ScanPrefix(s.distance, Threshold(distance), 0, prefix) && Scan(s.distance, Threshold(distance), 0, ws)
    requires Pick(short, s, distance, prefix) == Panicked
    ensures Pick(short, s, distance, ws) == Panicked
  {
    ScanExtendsPrefix(s.distance, Threshold(distance), 0, prefix, ws);
    var early, all := Estimates(s, distance, prefix), Estimates(s, distance, ws);
    ArgMinAboveSpec(early, 1.0);
    ArgMinAboveSpec(all, 1.0);
    var k := ArgMinAbove(early, 1.0).value;
    assert early[k] == all[k];
  }

  /** `len(activity.Stream.Altitude.Data)` needs the altitude stream of an activity that has streams. */
  predicate ActivityFits(a: Activity)
  {
    a.stream.Some? ==> a.stream.value.altitude.Some? && (a.stream.value.altitude.value != [] ==> Fits(a.stream.value))
  }

  /**
   * What `BestActivityEffort` ends with for one activity: the pick over the complete scan, or a panic
   * that a scan in progress already runs into.
   */
  ghost predicate IsBestActivityEffort(a: Activity, distance: real, r: Outcome)
    requires distance > 0.5 && ActivityFits(a)
  {
    if a.stream.None? || a.stream.value.altitude.value == [] then r == Returned(None)
    else
      exists ws :: ScanPrefix(a.stream.value.distance, Threshold(distance), 0, ws)
        && r == Pick(ShortOf(a), a.stream.value, distance, ws)
        && (r.Panicked? || Scan(a.stream.value.distance, Threshold(distance), 0, ws))
  }

  /** Each activity has exactly one outcome: the scan leaves no choice, and a panic is never avoided. */
  lemma BestActivityEffortUnique(a: Activity, distance: real, r1: Outcome, r2: Outcome)
    requires distance > 0.5 && ActivityFits(a)
    requires IsBestActivityEffort(a, distance, r1) && IsBestActivityEffort(a, distance, r2)
    ensures r1 == r2
  {
    if a.stream.Some? && a.stream.value.altitude.value != [] {
      var s, th, short := a.stream.value, Threshold(distance), ShortOf(a);
      var ws1 :| ScanPrefix(s.distance, th, 0, ws1) && r1 == Pick(short, s, distance, ws1)
        && (r1.Panicked? || Scan(s.distance, th, 0, ws1));
      var ws2 :| ScanPrefix(s.distance, th, 0, ws2) && r2 == Pick(short, s, distance, ws2)
        && (r2.Panicked? || Scan(s.distance, th, 0, ws2));
      if Scan(s.distance, th, 0, ws1) && Scan(s.distance, th, 0, ws2) {
        ScanUnique(s.distance, th, 0, ws1, ws2);
      } else if Scan(s.distance, th, 0, ws1) {
        PanicPersists(short, s, distance, ws2, ws1);
      } else if Scan(s.distance, th, 0, ws2) {
        PanicPersists(short, s, distance, ws1, ws2);
      }
    }
  }

  /** `BestActivityEffort`: nothing without a stream or without altitude data, else the scan. */
  method BestActivityEffort(a: Activity, distance: real) returns (r: Outcome)
    requires distance > 0.5 && ActivityFits(a)
    ensures a.stream.None? || a.stream.value.altitude.value == [] ==> r == Returned(None)
    ensures IsBestActivityEffort(a, distance, r)
  {
    if a.stream.None? || |a.stream.value.altitude.value| == 0 {
      return Returned(None);
    }
    ghost var ws;
    r, ws := BestActivityEffortForDistance(a.id, a.name, a.activityType, a.stream.value, distance);
  }

  function NegSeconds(e: Effort): real
  {
    -(e.seconds as real)
  }

  /**
   * `findBestActivityEffort`: the effort with the fewest seconds over all activities, the first one
   * on ties, or None when no activity has one. `efforts` holds the efforts of the activities scanned;
   * a panic in one activity's scan ends the whole search there.
   */
  method FindBestActivityEffort(activities: seq<Activity>, distance: real)
    returns (r: Outcome, ghost efforts: seq<Option<Effort>>)
    requires distance > 0.5 && forall i :: 0 <= i < |activities| ==> ActivityFits(activities[i])
    ensures |efforts| <= |activities|
    ensures forall i :: 0 <= i < |efforts| ==> IsBestActivityEffort(activities[i], distance, Returned(efforts[i]))
    ensures r.Returned? ==> |efforts| == |activities| && r.effort == FirstBest(efforts, NegSeconds)
    ensures r.Panicked? ==> |efforts| < |activities| && IsBestActivityEffort(activities[|efforts|], distance, Panicked)
  {
    var best: Option<Effort> := None;
    efforts := [];
    for i := 0 to |activities|
      invariant |efforts| == i
      invariant forall j :: 0 <= j < i ==> IsBestActivityEffort(activities[j], distance, Returned(efforts[j]))
      invariant best == FirstBest(efforts, NegSeconds)
    {
      var outcome := BestActivityEffort(activities[i], distance);
      if outcome.Panicked? {
        return Panicked, efforts;
      }
      var effort := outcome.effort;
      FirstBestSnoc(efforts, effort, NegSeconds);
      if effort.Some? && (best.None? || effort.value.seconds < best.value.seconds) {
        best := effort;
      }
      ghost var next := efforts + [effort];
      forall j | 0 <= j < i + 1
        ensures IsBestActivityEffort(activities[j], distance, Returned(next[j]))
      {
        if j < i {
          assert next[j] == efforts[j];
        }
      }
      efforts := next;
    }
    r := Returned(best);
  }

  /** The fastest effort found has the fewest seconds of all activities' efforts. */
  lemma FindBestIsFastest(efforts: seq<Option<Effort>>, i: nat)
    requires i < |efforts| && efforts[i].Some?
    ensures FirstBest(efforts, NegSeconds).Some?
    ensures FirstBest(efforts, NegSeconds).value.seconds <= efforts[i].value.seconds
  {
    FirstBestIndexSpec(efforts, NegSeconds);
  }

  // ---------------------------------------------------------------- activities without power data

  /**
   * A 1 km ride of 200 s recorded without a power meter, against the 1 km target: the scan evaluates
   * one window, accepts it, and panics on the missing power stream.
   */
  lemma AsWrittenNoPowerPanics(a: Activity)
    requires a.stream == Some(Stream([0.0, 1000.0], [0, 200], Some([0.0, 0.0]), None))
    ensures IsBestActivityEffort(a, 1000.0, Panicked)
  {
    var s, ws := a.stream.value, [Window(0, 1)];
    var th := Threshold(1000.0);
    assert !Reaches(s.distance, th, 0, 0) && Reaches(s.distance, th, 0, 1);
    assert Evaluated(s.distance, th, Lo(ws, 0, 0), 0, 1);
    assert ScanPrefix(s.distance, th, 0, ws);
    assert Estimates(s, 1000.0, ws) == [200.0];
    assert Pick(ShortOf(a), s, 1000.0, ws) == Panicked;
  }

  /**
   * The pick with the average power taken as `averagePower` in statistics.go takes it, 0 without
   * power data. It never panics: where the scan returns it returns the same effort, and where the
   * scan panics it returns the effort the scan was building, with average power 0.
   */
  function PickNilSafe(short: ActivityShort, s: Stream, distance: real, ws: seq<Window>): (r: Option<Effort>)
    requires Fits(s) && distance > 0.5 && ScanPrefix(s.distance, Threshold(distance), 0, ws)
    ensures Pick(short, s, distance, ws).Returned? ==> Pick(short, s, distance, ws) == Returned(r)
    ensures Pick(short, s, distance, ws).Panicked? ==> r.Some? && r.value.averagePower == 0.0
  {
    match ArgMinAbove(Estimates(s, distance, ws), 1.0)
    case None => None
    case Some(k) =>
      assert Evaluated(s.distance, Threshold(distance), Lo(ws, k, 0), k, ws[k].end);
      var power := if s.watts.None? then 0.0 else WattsMean(s.watts.value, ws[k]);
      Some(EffortAt(short, s, distance, ws[k], power))
  }

  /** Power data decides only the average power: with or without it, the same window is the best. */
  lemma NilSafeIgnoresPower(short: ActivityShort, s: Stream, distance: real, ws: seq<Window>, watts: Option<seq<int>>)
    requires Fits(s) && Fits(s.(watts := watts)) && distance > 0.5
    requires ScanPrefix(s.distance, Threshold(distance), 0, ws)
    ensures var r1, r2 := PickNilSafe(short, s, distance, ws), PickNilSafe(short, s.(watts := watts), distance, ws);
      && r1.Some? == r2.Some?
      && (r1.Some? ==> r1.value.(averagePower := 0.0) == r2.value.(averagePower := 0.0))
  {
    var t := s.(watts := watts);
    forall k | 0 <= k < |ws|
      ensures Estimates(s, distance, ws)[k] == Estimates(t, distance, ws)[k]
    {
      assert Evaluated(s.distance, Threshold(distance), Lo(ws, k, 0), k, ws[k].end);
      assert EstimatedTime(s, distance, ws[k]) == EstimatedTime(t, distance, ws[k]);
    }
    assert Estimates(s, distance, ws) == Estimates(t, distance, ws);
  }

  datatype BestEffortDistanceStatistic = BestEffortDistanceStatistic(
    name: string, activities: seq<Activity>, distance: real, bestActivityEffort: Option<Effort>)

  /**
   * `NewBestEffortDistanceStatistic`: panics (here: may not be called) for a target of 100 m or less.
   * None stands for the panic of an activity's scan, which leaves no statistic.
   */
  method NewBestEffortDistanceStatistic(name: string, activities: seq<Activity>, distance: real)
    returns (stat: Option<BestEffortDistanceStatistic>, ghost efforts: seq<Option<Effort>>)
    requires distance > 100.0
    requires forall i :: 0 <= i < |activities| ==> ActivityFits(activities[i])
    ensures |efforts| <= |activities|
    ensures forall i :: 0 <= i < |efforts| ==> IsBestActivityEffort(activities[i], distance, Returned(efforts[i]))
    ensures stat.Some? ==> stat.value.name == name && stat.value.activities == activities && stat.value.distance == distance
    ensures stat.Some? ==> |efforts| == |activities| && stat.value.bestActivityEffort == FirstBest(efforts, NegSeconds)
    ensures stat.None? ==> |efforts| < |activities| && IsBestActivityEffort(activities[|efforts|], distance, Panicked)
  {
    var outcome;
    outcome, efforts := FindBestActivityEffort(activities, distance);
    if outcome.Panicked? {
      return None, efforts;
    }
    stat := Some(BestEffortDistanceStatistic(name, activities, distance, outcome.effort));
  }
}
