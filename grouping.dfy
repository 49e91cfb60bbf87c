/**
 * Bucketing activities under a key cut out of their `StartDateLocal` text, as the Go code does with
 * `byKey[key] = append(byKey[key], activity)` (year `[:4]`, month `[5:7]`, day `[5:10]`). The callers
 * then top the buckets up with empty lists for keys that must be present (`BucketOfOtherKey`).
 */
module Grouping {
  import opened Strava

  /** Every activity's date text is long enough to cut `[lo:hi]` out of it (Go panics otherwise). */
  predicate LongEnough(activities: seq<Activity>, hi: nat)
  {
    forall i :: 0 <= i < |activities| ==> |activities[i].startDateLocal| >= hi
  }

  /** `activity.StartDateLocal[lo:hi]`. */
  function DateKey(a: Activity, lo: nat, hi: nat): string
    requires lo <= hi <= |a.startDateLocal|
  {
    a.startDateLocal[lo..hi]
  }

  /** The keys of the activities. */
  function KeysOf(activities: seq<Activity>, lo: nat, hi: nat): set<string>
    requires lo <= hi && LongEnough(activities, hi)
  {
    set i | 0 <= i < |activities| :: DateKey(activities[i], lo, hi)
  }

  /** The activities filed under `key`, in input order. */
  function Bucket(activities: seq<Activity>, lo: nat, hi: nat, key: string): (b: seq<Activity>)
    requires lo <= hi && LongEnough(activities, hi)
    ensures |b| <= |activities|
  {
    if activities == [] then []
    else
      var a := activities[|activities| - 1];
      Bucket(activities[..|activities| - 1], lo, hi, key) + (if DateKey(a, lo, hi) == key then [a] else [])
  }

  /** A bucket holds exactly the activities with its key. */
  lemma {:induction false} BucketMembers(activities: seq<Activity>, lo: nat, hi: nat, key: string)
    requires lo <= hi && LongEnough(activities, hi)
    ensures forall a :: a in Bucket(activities, lo, hi, key) <==> a in activities && DateKey(a, lo, hi) == key
  {
    if activities != [] {
      var n := |activities| - 1;
      BucketMembers(activities[..n], lo, hi, key);
      assert activities == activities[..n] + [activities[n]];
    }
  }

  /** A key no activity has gets an empty bucket. */
  lemma {:induction false} BucketOfOtherKey(activities: seq<Activity>, lo: nat, hi: nat, key: string)
    requires lo <= hi && LongEnough(activities, hi) && key !in KeysOf(activities, lo, hi)
    ensures Bucket(activities, lo, hi, key) == []
  {
    if activities != [] {
      var n := |activities| - 1;
      assert DateKey(activities[n], lo, hi) in KeysOf(activities, lo, hi);
      assert KeysOf(activities[..n], lo, hi) <= KeysOf(activities, lo, hi) by {
        forall j | 0 <= j < n
          ensures DateKey(activities[..n][j], lo, hi) in KeysOf(activities, lo, hi)
        {
          assert activities[..n][j] == activities[j];
        }
      }
      BucketOfOtherKey(activities[..n], lo, hi, key);
    }
  }

  /** `m[key] = append(m[key], a)`: a missing key reads as the empty list. */
  function AppendTo(m: map<string, seq<Activity>>, key: string, a: Activity): map<string, seq<Activity>>
  {
    m[key := (if key in m then m[key] else []) + [a]]
  }

  lemma BucketStep(activities: seq<Activity>, lo: nat, hi: nat, i: nat, key: string)
    requires lo <= hi && LongEnough(activities, hi) && i < |activities|
    ensures Bucket(activities[..i + 1], lo, hi, key)
      == Bucket(activities[..i], lo, hi, key) + (if DateKey(activities[i], lo, hi) == key then [activities[i]] else [])
  {
    assert activities[..i + 1][..i] == activities[..i];
  }

  /** What the append loop keeps after the first `i` activities. */
  predicate Grouped(activities: seq<Activity>, lo: nat, hi: nat, byKey: map<string, seq<Activity>>)
    requires lo <= hi && LongEnough(activities, hi)
  {
    && byKey.Keys == KeysOf(activities, lo, hi)
    && forall key :: key in byKey ==> byKey[key] == Bucket(activities, lo, hi, key)
  }

  lemma GroupedStep(activities: seq<Activity>, lo: nat, hi: nat, i: nat, byKey: map<string, seq<Activity>>)
    requires lo <= hi && LongEnough(activities, hi) && i < |activities|
    requires Grouped(activities[..i], lo, hi, byKey)
    ensures Grouped(activities[..i + 1], lo, hi, AppendTo(byKey, DateKey(activities[i], lo, hi), activities[i]))
  {
    var key := DateKey(activities[i], lo, hi);
    var next := AppendTo(byKey, key, activities[i]);
    forall k | k in next
      ensures next[k] == Bucket(activities[..i + 1], lo, hi, k)
    {
      BucketStep(activities, lo, hi, i, k);
      if k == key && key !in byKey {
        BucketOfOtherKey(activities[..i], lo, hi, key);
      }
    }
    assert KeysOf(activities[..i + 1], lo, hi) == KeysOf(activities[..i], lo, hi) + {key} by {
      assert forall j :: 0 <= j < i ==> activities[..i + 1][j] == activities[..i][j];
      assert activities[..i + 1][i] == activities[i];
    }
  }

  /** The append loop: one bucket per key, holding that key's activities in input order. */
  method GroupBy(activities: seq<Activity>, lo: nat, hi: nat) returns (byKey: map<string, seq<Activity>>)
    requires lo <= hi && LongEnough(activities, hi)
    ensures byKey.Keys == KeysOf(activities, lo, hi)
    ensures forall key :: key in byKey ==> byKey[key] == Bucket(activities, lo, hi, key)
  {
    byKey := map[];
    for i := 0 to |activities|
      invariant Grouped(activities[..i], lo, hi, byKey)
    {
      GroupedStep(activities, lo, hi, i, byKey);
      byKey := AppendTo(byKey, DateKey(activities[i], lo, hi), activities[i]);
    }
    assert activities[..|activities|] == activities;
  }

  /** What a fill loop keeps: the activities' own keys plus the keys `extra` filled in so far. */
  predicate Filled(activities: seq<Activity>, lo: nat, hi: nat, extra: set<string>, byKey: map<string, seq<Activity>>)
    requires lo <= hi && LongEnough(activities, hi)
  {
    && byKey.Keys == KeysOf(activities, lo, hi) + extra
    && forall key :: key in byKey ==> byKey[key] == Bucket(activities, lo, hi, key)
  }

  /** `if _, exists := m[key]; !exists { m[key] = []Activity{} }` keeps every bucket right. */
  lemma FilledStep(activities: seq<Activity>, lo: nat, hi: nat, extra: set<string>, key: string, byKey: map<string, seq<Activity>>)
    requires lo <= hi && LongEnough(activities, hi) && Filled(activities, lo, hi, extra, byKey)
    ensures Filled(activities, lo, hi, extra + {key}, if key in byKey then byKey else byKey[key := []])
  {
    if key !in byKey {
      BucketOfOtherKey(activities, lo, hi, key);
    }
  }
}
