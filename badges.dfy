/**
 * Distance badges (`badges/distance.go`) and badge sets (`badges/badgeset.go`): a badge is earned by
 * every activity at least as long as its threshold, and a set checks its badges one after the other.
 */
module Badges {
  import opened Strava
  import opened ActivityProvider

  /** `DistanceBadge`: a label (`title`) and a threshold in metres. */
  datatype DistanceBadge = DistanceBadge(title: string, distance: real)

  /** The activities a badge accepts: `activity.Distance >= d.Distance`. */
  function Reaches(b: DistanceBadge): Activity -> bool
  {
    (a: Activity) => a.distance >= b.distance
  }

  /** `DistanceBadge.Check`: the activities that reach the threshold, in input order, and whether there is one. */
  method Check(b: DistanceBadge, activities: seq<Activity>) returns (checked: seq<Activity>, completed: bool)
    ensures checked == Keep(activities, Reaches(b))
    ensures completed <==> |checked| > 0
  {
    checked := [];
    for i := 0 to |activities|
      invariant checked == Keep(activities[..i], Reaches(b))
    {
      KeepStep(activities, i, Reaches(b));
      if activities[i].distance >= b.distance {
        checked := checked + [activities[i]];
      }
    }
    assert activities[..|activities|] == activities;
    completed := |checked| > 0;
  }

  /** The checked activities are exactly the long enough ones, each as often as in the input. */
  lemma CheckedAreLongEnough(b: DistanceBadge, activities: seq<Activity>, a: Activity)
    ensures a in Keep(activities, Reaches(b)) <==> a in activities && a.distance >= b.distance
    ensures multiset(Keep(activities, Reaches(b)))[a] == if a.distance >= b.distance then multiset(activities)[a] else 0
  {
    KeepCount(activities, Reaches(b), a);
  }

  /** A badge is completed exactly when some activity reaches its threshold. */
  lemma CompletedIffSomeActivity(b: DistanceBadge, activities: seq<Activity>)
    ensures |Keep(activities, Reaches(b))| > 0 <==> exists i :: 0 <= i < |activities| && activities[i].distance >= b.distance
  {
    KeepMembers(activities, Reaches(b));
    var kept := Keep(activities, Reaches(b));
    if |kept| > 0 {
      assert kept[0] in kept;
    }
  }

  /** A badge with a higher threshold accepts only activities a lower one accepts as well. */
  lemma HigherThresholdFewerActivities(low: DistanceBadge, high: DistanceBadge, activities: seq<Activity>)
    requires low.distance <= high.distance
    ensures forall a :: a in Keep(activities, Reaches(high)) ==> a in Keep(activities, Reaches(low))
    ensures |Keep(activities, Reaches(high))| > 0 ==> |Keep(activities, Reaches(low))| > 0
  {
    KeepMembers(activities, Reaches(high));
    KeepMembers(activities, Reaches(low));
    var kept := Keep(activities, Reaches(high));
    if |kept| > 0 {
      assert kept[0] in Keep(activities, Reaches(low));
    }
  }

  // ---------------------------------------------------------------- badge sets

  /** `BadgeSet`: a name and its badges, easiest first in the sets below. */
  datatype BadgeSet = BadgeSet(name: string, badges: seq<DistanceBadge>)

  /** `business.BadgeCheckResult`. */
  datatype BadgeCheckResult = BadgeCheckResult(badge: DistanceBadge, activities: seq<Activity>, isCompleted: bool)

  /** What checking one badge gives. */
  function Outcome(b: DistanceBadge, activities: seq<Activity>): BadgeCheckResult
  {
    var checked := Keep(activities, Reaches(b));
    BadgeCheckResult(b, checked, |checked| > 0)
  }

  /** What checking every badge of a set gives, in badge order. */
  function Outcomes(badges: seq<DistanceBadge>, activities: seq<Activity>): (r: seq<BadgeCheckResult>)
    ensures |r| == |badges|
  {
    seq(|badges|, i requires 0 <= i < |badges| => Outcome(badges[i], activities))
  }

  /** `BadgeSet.Check`: one result per badge, in badge order, each the badge's own check. */
  method CheckSet(badgeSet: BadgeSet, activities: seq<Activity>) returns (results: seq<BadgeCheckResult>)
    ensures |results| == |badgeSet.badges|
    ensures forall i :: 0 <= i < |results| ==>
      && results[i].badge == badgeSet.badges[i]
      && results[i].activities == Keep(activities, Reaches(badgeSet.badges[i]))
      && (results[i].isCompleted <==> |results[i].activities| > 0)
  {
    results := [];
    for i := 0 to |badgeSet.badges|
      invariant results == Outcomes(badgeSet.badges[..i], activities)
    {
      var checked, completed := Check(badgeSet.badges[i], activities);
      results := results + [BadgeCheckResult(badgeSet.badges[i], checked, completed)];
    }
    assert badgeSet.badges[..|badgeSet.badges|] == badgeSet.badges;
  }

  /** `BadgeSet.Plus`: the left set's name over the badges of both sets. */
  function Plus(a: BadgeSet, b: BadgeSet): (r: BadgeSet)
  {
    BadgeSet(a.name, a.badges + b.badges)
  }

  /** Checking a combined set is checking the left set, then the right one. */
  lemma PlusOutcomes(a: BadgeSet, b: BadgeSet, activities: seq<Activity>)
    ensures Plus(a, b).name == a.name
    ensures Outcomes(Plus(a, b).badges, activities) == Outcomes(a.badges, activities) + Outcomes(b.badges, activities)
  {
  }

  /** Thresholds that never go down from one level to the next. */
  predicate Graded(badges: seq<DistanceBadge>)
  {
    forall i, j :: 0 <= i < j < |badges| ==> badges[i].distance <= badges[j].distance
  }

  /** In a graded set, completing a level means every easier level is completed, with at least its activities. */
  lemma GradedLevelsNested(badgeSet: BadgeSet, activities: seq<Activity>, i: nat, j: nat)
    requires Graded(badgeSet.badges) && i < j < |badgeSet.badges|
    ensures var r := Outcomes(badgeSet.badges, activities);
      && (forall a :: a in r[j].activities ==> a in r[i].activities)
      && (r[j].isCompleted ==> r[i].isCompleted)
  {
    HigherThresholdFewerActivities(badgeSet.badges[i], badgeSet.badges[j], activities);
  }

  // ---------------------------------------------------------------- the sets of `distance.go`

  const DistanceRideBadgeSet: BadgeSet := BadgeSet("Hit the road", [
    DistanceBadge("Hit the road 50 km", 50000.0),
    DistanceBadge("Hit the road 100 km", 100000.0),
    DistanceBadge("Hit the road 150 km", 150000.0),
    DistanceBadge("Hit the road 200 km", 200000.0),
    DistanceBadge("Hit the road 250 km", 250000.0),
    DistanceBadge("Hit the road 300 km", 300000.0)])

  const DistanceRunBadgeSet: BadgeSet := BadgeSet("Run that distance", [
    DistanceBadge("Run that distance 10 km", 10000.0),
    DistanceBadge("Run that distance half Marathon", 21097.0),
    DistanceBadge("Run that distance 30 km", 30000.0),
    DistanceBadge("Run that distance Marathon", 42195.0)])

  const DistanceHikeBadgeSet: BadgeSet := BadgeSet("Hike that distance", [
    DistanceBadge("Hike that distance 10 km", 10000.0),
    DistanceBadge("Hike that distance 15 km", 15000.0),
    DistanceBadge("Hike that distance 20 km", 20000.0),
    DistanceBadge("Hike that distance 25 km", 25000.0),
    DistanceBadge("Hike that distance 30 km", 30000.0),
    DistanceBadge("Hike that distance 35 km", 35000.0)])

  /** The ride set: six levels, 50 km apart, from 50 km to 300 km, strictly ascending. */
  lemma RideSetLevels()
    ensures |DistanceRideBadgeSet.badges| == 6
    ensures forall k :: 0 <= k < 6 ==> DistanceRideBadgeSet.badges[k].distance == 50000.0 * (k + 1) as real
    ensures forall i, j :: 0 <= i < j < 6 ==> DistanceRideBadgeSet.badges[i].distance < DistanceRideBadgeSet.badges[j].distance
  {
  }

  /** All three sets are graded, so `GradedLevelsNested` applies to them. */
  lemma DistanceSetsGraded()
    ensures Graded(DistanceRideBadgeSet.badges)
    ensures Graded(DistanceRunBadgeSet.badges)
    ensures Graded(DistanceHikeBadgeSet.badges)
  {
    RideSetLevels();
  }
}
