/**
 * `service.go`: the sorted keys of a map and the per-day grouping of one year's activities that the
 * cumulative charts walk over.
 */
module Service {
  import opened Strava
  import opened Text
  import opened Sorting
  import opened Calendar
  import opened Grouping

  /** `keys` lists the strings of `s`, each once, in ascending byte order. */
  ghost predicate IsKeyOrder(keys: seq<string>, s: set<string>)
  {
    && (forall i, j :: 0 <= i < j < |keys| ==> LexLess(keys[i], keys[j]))
    && (forall k :: k in keys <==> k in s)
  }

  lemma KeyOrderDistinct(keys: seq<string>, s: set<string>)
    requires IsKeyOrder(keys, s)
    ensures Distinct(keys)
  {
    forall i, j | 0 <= i < j < |keys|
      ensures keys[i] != keys[j]
    {
      LexLessIrreflexive(keys[i]);
    }
  }

  /** The key order is fixed by the set of keys: whatever order a map walk visits them in, the result is the same. */
  lemma KeyOrderUnique(a: seq<string>, b: seq<string>, s: set<string>)
    requires IsKeyOrder(a, s) && IsKeyOrder(b, s)
    ensures a == b
  {
    KeyOrderDistinct(a, s);
    KeyOrderDistinct(b, s);
    DistinctSameElements(a, b);
    LexLeTotalOrder();
    SortedUnique(a, b, LexLe);
  }

  /** A distinct listing of a set, sorted, is its key order. */
  lemma SortedListing(listing: seq<string>, s: set<string>)
    requires Distinct(listing) && forall k :: k in listing <==> k in s
    ensures IsKeyOrder(SortStrings(listing), s)
  {
    var keys := SortStrings(listing);
    DistinctPermutation(listing, keys);
    forall i, j | 0 <= i < j < |keys|
      ensures LexLess(keys[i], keys[j])
    {
      assert LexLe(keys[i], keys[j]);
    }
    forall k
      ensures k in keys <==> k in listing
    {
      assert k in keys <==> k in multiset(keys);
    }
  }

  /** The strings of `s` in some order, each once. */
  ghost function Listing(s: set<string>): (r: seq<string>)
    ensures Distinct(r) && |r| == |s| && forall k :: k in r <==> k in s
    decreases |s|
  {
    if s == {} then [] else var x :| x in s; [x] + Listing(s - {x})
  }

  /** The order in which the charts walk the keys `s`: ascending byte order. */
  ghost function KeyOrder(s: set<string>): (keys: seq<string>)
    ensures IsKeyOrder(keys, s) && |keys| == |s|
    ensures forall j :: 0 <= j < |keys| ==> keys[j] in s
  {
    var listing := Listing(s);
    SortedListing(listing, s);
    SortStrings(listing)
  }

  /** Where a key sits in the key order. */
  lemma PositionOf(keys: seq<string>, key: string) returns (i: nat)
    requires key in keys
    ensures i < |keys| && keys[i] == key
  {
    i :| 0 <= i < |keys| && keys[i] == key;
  }

  /** In the key order, a key that is not greater comes no later. */
  lemma KeyOrderIndex(keys: seq<string>, s: set<string>, i: nat, j: nat)
    requires IsKeyOrder(keys, s) && i < |keys| && j < |keys| && LexLe(keys[i], keys[j])
    ensures i <= j
  {
    if j < i {
      assert LexLess(keys[j], keys[i]);
      LexLessTrichotomy(keys[i], keys[j]);
      LexLessIrreflexive(keys[i]);
    }
  }

  /** The keys of the key order are the set. */
  lemma KeyOrderCovers(keys: seq<string>, s: set<string>)
    requires IsKeyOrder(keys, s)
    ensures (set j | 0 <= j < |keys| :: keys[j]) == s
  {
    forall k | k in s
      ensures k in (set j | 0 <= j < |keys| :: keys[j])
    {
      assert k in keys;
    }
  }

  /** `for key := range m { keys = append(keys, key) }`: every key once, in the order the map walk gives. */
  method MapKeys<V>(m: map<string, V>) returns (keys: seq<string>)
    ensures Distinct(keys) && forall k :: k in keys <==> k in m
  {
    keys := [];
    var rest := m.Keys;
    while rest != {}
      invariant rest <= m.Keys
      invariant Distinct(keys)
      invariant forall k :: k in keys <==> k in m.Keys && k !in rest
      decreases |rest|
    {
      var key :| key in rest;
      keys := keys + [key];
      rest := rest - {key};
    }
  }

  /** A listing of a set without repeats holds each of its elements once. */
  lemma ListingMultiset(listing: seq<string>, s: set<string>)
    requires Distinct(listing) && forall k :: k in listing <==> k in s
    ensures multiset(listing) == multiset(s)
  {
    forall x
      ensures multiset(listing)[x] == multiset(s)[x]
    {
      DistinctCount(listing, x);
    }
  }

  /** `sortedKeys`: the keys in the order a map walk meets them, then `sort.Strings`. */
  method SortedKeys<V>(m: map<string, V>) returns (keys: seq<string>)
    ensures IsKeyOrder(keys, m.Keys)
    ensures keys == KeyOrder(m.Keys)
  {
    var collected := MapKeys(m);
    keys := SortStrings(collected);
    SortedListing(collected, m.Keys);
    KeyOrderUnique(keys, KeyOrder(m.Keys), m.Keys);
  }

  /** The values of `f` on `0 .. n - 1`. */
  function Image(f: nat -> string, n: nat): set<string>
  {
    set j | 0 <= j < n :: f(j)
  }

  lemma ImageStep(f: nat -> string, n: nat)
    ensures Image(f, n + 1) == Image(f, n) + {f(n)}
  {
    forall x | x in Image(f, n + 1)
      ensures x in Image(f, n) + {f(n)}
    {
      var j :| 0 <= j < n + 1 && x == f(j);
      if j < n {
        assert x in Image(f, n);
      }
    }
    assert f(n) in Image(f, n + 1);
  }

  /** The "01-02" texts of the first `n` days counted from 1 January of `year`. */
  function YearDayKeys(year: int, n: nat): set<string>
  {
    Image((j: nat) => MonthDay(NthDay(year, j)), n)
  }

  lemma YearDayKeysStep(year: int, i: nat)
    ensures YearDayKeys(year, i + 1) == YearDayKeys(year, i) + {MonthDay(NthDay(year, i))}
  {
    ImageStep((j: nat) => MonthDay(NthDay(year, j)), i);
  }

  /** Copying a map key by key, over a listing of all its keys, gives back the same map. */
  method CopyOver<V>(m: map<string, V>, keys: seq<string>) returns (r: map<string, V>)
    requires forall k :: k in keys <==> k in m
    ensures r == m
  {
    r := map[];
    for i := 0 to |keys|
      invariant forall k :: k in r ==> k in m && r[k] == m[k]
      invariant forall j :: 0 <= j < i ==> keys[j] in r
    {
      r := r[keys[i] := m[keys[i]]];
    }
    forall k | k in m
      ensures k in r
    {
      assert k in keys;
    }
  }

  /** Rebuilding a map by walking its sorted keys gives back the same map. */
  method RebuildInKeyOrder<V>(m: map<string, V>) returns (r: map<string, V>)
    ensures r == m
  {
    var keys := SortedKeys(m);
    r := CopyOver(m, keys);
  }

  /**
   * `groupActivitiesByDay`: the activities under `StartDateLocal[5:10]`, then an empty list for each
   * of the 366 days from 1 January that has none, then the map rebuilt in key order.
   */
  method GroupActivitiesByDay(activities: seq<Activity>, year: int) returns (byDay: map<string, seq<Activity>>)
    requires LongEnough(activities, 10)
    ensures byDay.Keys == KeysOf(activities, 5, 10) + YearDayKeys(year, 366)
    ensures forall k :: k in byDay ==> byDay[k] == Bucket(activities, 5, 10, k)
  {
    var grouped := GroupBy(activities, 5, 10);
    var current := Date(year, 1, 1);
    for i := 0 to 366
      invariant current == NthDay(year, i)
      invariant Filled(activities, 5, 10, YearDayKeys(year, i), grouped)
    {
      var dayString := MonthDay(current);
      FilledStep(activities, 5, 10, YearDayKeys(year, i), dayString, grouped);
      YearDayKeysStep(year, i);
      if dayString !in grouped {
        grouped := grouped[dayString := []];
      }
      current := NextDay(current);
    }
    byDay := RebuildInKeyOrder(grouped);
  }

  /** Every date of the year has its "01-02" key among the 366 filled in. */
  lemma YearDayKeysCoverYear(d: Date)
    requires d.Valid()
    ensures MonthDay(d) in YearDayKeys(d.year, 366)
  {
    NthDayCoversYear(d);
    var key := (j: nat) => MonthDay(NthDay(d.year, j));
    assert key(DayOfYear(d)) in Image(key, 366);
  }
}
