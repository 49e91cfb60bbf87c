/**
 * The data the analytics work on: activities as loaded from Strava (or a FIT file), their
 * index-aligned streams, the activity types the back end knows, and the effort records the
 * best-effort scanners produce.
 */
module Strava {
  import opened Wrappers
  import opened Numeric

  /** The back end's activity types; the constructor order is the `iota` order. */
  datatype ActivityType =
    | Run | TrailRun | Ride | GravelRide | MountainBikeRide
    | InlineSkate | Hike | Commute | AlpineSki | VirtualRide

  const AllTypes: seq<ActivityType> :=
    [Run, TrailRun, Ride, GravelRide, MountainBikeRide, InlineSkate, Hike, Commute, AlpineSki, VirtualRide]

  function Ordinal(t: ActivityType): (n: nat)
    ensures n < |AllTypes| && AllTypes[n] == t
  {
    match t
    case Run => 0
    case TrailRun => 1
    case Ride => 2
    case GravelRide => 3
    case MountainBikeRide => 4
    case InlineSkate => 5
    case Hike => 6
    case Commute => 7
    case AlpineSki => 8
    case VirtualRide => 9
  }

  /** `ActivityType.String()`. */
  function TypeName(t: ActivityType): (name: string)
    ensures name != "" && '_' !in name
  {
    match t
    case Run => "Run"
    case TrailRun => "TrailRun"
    case Ride => "Ride"
    case GravelRide => "GravelRide"
    case MountainBikeRide => "MountainBikeRide"
    case InlineSkate => "InlineSkate"
    case Hike => "Hike"
    case Commute => "Commute"
    case AlpineSki => "AlpineSki"
    case VirtualRide => "VirtualRide"
  }

  /** Looking a name up in `business.ActivityTypes`: the type of that name, if there is one. */
  function LookupType(name: string): (r: Option<ActivityType>)
    ensures r.Some? ==> TypeName(r.value) == name
  {
    if name == "Run" then Some(Run)
    else if name == "TrailRun" then Some(TrailRun)
    else if name == "Ride" then Some(Ride)
    else if name == "GravelRide" then Some(GravelRide)
    else if name == "MountainBikeRide" then Some(MountainBikeRide)
    else if name == "InlineSkate" then Some(InlineSkate)
    else if name == "Hike" then Some(Hike)
    else if name == "Commute" then Some(Commute)
    else if name == "AlpineSki" then Some(AlpineSki)
    else if name == "VirtualRide" then Some(VirtualRide)
    else None
  }

  /** Every type is found under its own name, so the lookup and `String()` are inverse. */
  lemma LookupTypeName(t: ActivityType)
    ensures LookupType(TypeName(t)) == Some(t)
  {
  }

  predicate IsKnownTypeName(name: string)
  {
    LookupType(name).Some?
  }

  /** `business.ActivityTypes[name]` without the ok flag: an unknown name reads as the zero value, Run. */
  function TypeOrZero(name: string): (t: ActivityType)
    ensures IsKnownTypeName(name) ==> TypeName(t) == name
    ensures !IsKnownTypeName(name) ==> t == Run
  {
    match LookupType(name)
    case Some(t) => t
    case None => Run
  }

  /**
   * The streams of an activity, index-aligned: sample i of every series belongs to the same point.
   * Distance and time are always present; altitude and watts may be missing (nil in the source).
   */
  datatype Stream = Stream(distance: seq<real>, time: seq<int>, altitude: Option<seq<real>>, watts: Option<seq<int>>)

  /** The elapsed-seconds axis of a stream, one value per distance sample. */
  function TimeAxis(s: Stream): (axis: seq<real>)
    requires |s.time| >= |s.distance|
    ensures |axis| == |s.distance|
    ensures forall k :: 0 <= k < |axis| ==> axis[k] == s.time[k] as real
  {
    IntsToReals(s.time[..|s.distance|])
  }

  datatype Activity = Activity(
    id: int,
    name: string,
    activityType: string,
    startDateLocal: string,
    distance: real,
    totalElevationGain: real,
    averageSpeed: real,
    averageHeartrate: real,
    maxHeartrate: real,
    averageWatts: real,
    commute: bool,
    stream: Option<Stream>)

  datatype ActivityShort = ActivityShort(id: int, name: string, activityType: ActivityType)

  /** One best effort: the window [idxStart, idxEnd] of an activity's streams and what it achieved. */
  datatype Effort = Effort(
    distance: real,
    seconds: int,
    deltaAltitude: real,
    idxStart: nat,
    idxEnd: nat,
    averagePower: real,
    activity: ActivityShort)

  function ShortOf(a: Activity): ActivityShort
  {
    ActivityShort(a.id, a.name, TypeOrZero(a.activityType))
  }
}
