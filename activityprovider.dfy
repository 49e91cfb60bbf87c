/**
 * `activityprovider.go`: the filters the Strava activity provider applies before every statistic
 * (by requested type, by year, by known type name), the per-day kilometre tally of the active-days
 * queries, and the per-year grouping with empty lists filled in between the first and the last year.
 */
module ActivityProvider {
  import opened Wrappers
  import opened Numeric
  import opened Text
  import opened Strava
  import opened Grouping
  import opened Service
  import opened Eddington

  // ---------------------------------------------------------------- order-keeping filters

  /** The activities that satisfy `p`, in input order: the `filtered = append(filtered, activity)` loops. */
  function Keep(activities: seq<Activity>, p: Activity -> bool): (r: seq<Activity>)
    ensures |r| <= |activities|
  {
    if activities == [] then []
    else
      var n := |activities| - 1;
      Keep(activities[..n], p) + (if p(activities[n]) then [activities[n]] else [])
  }

  lemma KeepStep(activities: seq<Activity>, i: nat, p: Activity -> bool)
    requires i < |activities|
    ensures Keep(activities[..i + 1], p) == Keep(activities[..i], p) + (if p(activities[i]) then [activities[i]] else [])
  {
    assert activities[..i + 1][..i] == activities[..i];
  }

  /** A filter keeps each satisfying activity as often as it occurs, and nothing else. */
  lemma {:induction false} KeepCount(activities: seq<Activity>, p: Activity -> bool, a: Activity)
    ensures multiset(Keep(activities, p))[a] == if p(a) then multiset(activities)[a] else 0
  {
    if activities != [] {
      var n := |activities| - 1;
      KeepCount(activities[..n], p, a);
      assert activities == activities[..n] + [activities[n]];
    }
  }

  lemma KeepMembers(activities: seq<Activity>, p: Activity -> bool)
    ensures forall a :: a in Keep(activities, p) <==> a in activities && p(a)
  {
    forall a
      ensures a in Keep(activities, p) <==> a in activities && p(a)
    {
      KeepCount(activities, p, a);
    }
  }

  /** Filtering commutes with concatenation, so the input order survives. */
  lemma {:induction false} KeepAppend(s: seq<Activity>, t: seq<Activity>, p: Activity -> bool)
    ensures Keep(s + t, p) == Keep(s, p) + Keep(t, p)
  {
    if t != [] {
      var n := |t| - 1;
      assert (s + t)[..|s + t| - 1] == s + t[..n];
      KeepAppend(s, t[..n], p);
    } else {
      assert s + t == s;
    }
  }

  // ---------------------------------------------------------------- FilterActivitiesByType

  /** One requested type selects an activity: Commute means a commuting ride, any other type its own non-commutes. */
  predicate Selects(t: ActivityType, a: Activity)
  {
    if t == Commute then a.activityType == TypeName(Ride) && a.commute
    else a.activityType == TypeName(t) && !a.commute
  }

  predicate SelectedBy(types: seq<ActivityType>, a: Activity)
  {
    exists j :: 0 <= j < |types| && Selects(types[j], a)
  }

  function Selector(types: seq<ActivityType>): Activity -> bool
  {
    a => SelectedBy(types, a)
  }

  /** The inner loop over the requested types, left at the first that selects the activity. */
  method AnySelects(types: seq<ActivityType>, a: Activity) returns (found: bool)
    ensures found <==> SelectedBy(types, a)
  {
    found := false;
    var j := 0;
    while j < |types| && !found
      invariant 0 <= j <= |types|
      invariant found <==> exists k :: 0 <= k < j && Selects(types[k], a)
    {
      if types[j] == Commute {
        if a.activityType == TypeName(Ride) && a.commute {
          found := true;
        }
      } else if a.activityType == TypeName(types[j]) && !a.commute {
        found := true;
      }
      j := j + 1;
    }
  }

  /** `FilterActivitiesByType`: the activities some requested type selects, each once, in input order. */
  method FilterActivitiesByType(activities: seq<Activity>, types: seq<ActivityType>) returns (filtered: seq<Activity>)
    ensures filtered == Keep(activities, Selector(types))
  {
    if |types| == 0 {
      NoTypesNoActivities(activities);
      return [];
    }
    filtered := [];
    for i := 0 to |activities|
      invariant filtered == Keep(activities[..i], Selector(types))
    {
      var keep := AnySelects(types, activities[i]);
      KeepStep(activities, i, Selector(types));
      if keep {
        filtered := filtered + [activities[i]];
      }
    }
    assert activities[..|activities|] == activities;
  }

  /** No requested type, no activity. */
  lemma {:induction false} NoTypesNoActivities(activities: seq<Activity>)
    ensures Keep(activities, Selector([])) == []
  {
    if activities != [] {
      NoTypesNoActivities(activities[..|activities| - 1]);
    }
  }

  /** A ride is either a commute or a ride, never both and never neither. */
  lemma RideOrCommute(a: Activity)
    requires a.activityType == TypeName(Ride)
    ensures SelectedBy([Ride], a) <==> !SelectedBy([Commute], a)
  {
    assert [Ride][0] == Ride && [Commute][0] == Commute;
    if a.commute {
      assert Selects(Commute, a) && !Selects(Ride, a);
    } else {
      assert Selects(Ride, a) && !Selects(Commute, a);
    }
  }

  /** Only rides are commutes. */
  lemma CommutesAreRides(a: Activity)
    requires SelectedBy([Commute], a)
    ensures a.activityType == "Ride" && a.commute
  {
  }

  /** An activity a requested type selects is kept exactly as often as it occurs, even when several types select it. */
  lemma SelectedOnce(activities: seq<Activity>, types: seq<ActivityType>, a: Activity)
    ensures multiset(Keep(activities, Selector(types)))[a] == if SelectedBy(types, a) then multiset(activities)[a] else 0
  {
    KeepCount(activities, Selector(types), a);
  }

  // ---------------------------------------------------------------- FilterActivitiesByYear

  /**
   * `strconv.Atoi(activity.StartDateLocal[:4])` with the error dropped, so an unreadable year reads as 0.
   * (A text shorter than four characters makes Go panic; the filters require the length, and the value
   * given to it here is never used.)
   */
  function YearOf(a: Activity): int
  {
    if |a.startDateLocal| < 4 then 0
    else
      match Atoi(a.startDateLocal[..4])
      case Ok(v) => v
      case Err(_) => 0
  }

  function InYear(year: int): Activity -> bool
  {
    a => YearOf(a) == year
  }

  /** `FilterActivitiesByYear`: no year keeps everything; otherwise the activities of that year, in input order. */
  method FilterActivitiesByYear(activities: seq<Activity>, year: Option<int>) returns (filtered: seq<Activity>)
    requires year.Some? ==> LongEnough(activities, 4)
    ensures year.None? ==> filtered == activities
    ensures year.Some? ==> filtered == Keep(activities, InYear(year.value))
  {
    if year.None? {
      return activities;
    }
    filtered := [];
    for i := 0 to |activities|
      invariant filtered == Keep(activities[..i], InYear(year.value))
    {
      var activityYear := match Atoi(activities[i].startDateLocal[..4]) case Ok(v) => v case Err(_) => 0;
      KeepStep(activities, i, InYear(year.value));
      if activityYear == year.value {
        filtered := filtered + [activities[i]];
      }
    }
    assert activities[..|activities|] == activities;
  }

  /** Four leading digits are read as the year they spell. */
  lemma YearOfDigits(a: Activity)
    requires |a.startDateLocal| >= 4 && AllDigits(a.startDateLocal[..4])
    ensures YearOf(a) == DigitsValue(a.startDateLocal[..4])
  {
    YearNumberOfDigits(a.startDateLocal[..4]);
  }

  // ---------------------------------------------------------------- active days

  /** `strings.Split(activity.StartDateLocal, "T")[0]`: the date part. */
  function ActiveDay(a: Activity): string
  {
    Before(a.startDateLocal, 'T')
  }

  /** The days the activities fall on. */
  function ActiveDaysOf(activities: seq<Activity>): set<string>
  {
    set i | 0 <= i < |activities| :: ActiveDay(activities[i])
  }

  /** `int(activity.Distance / 1000)`, added up over the activities of `day`. */
  function KmOn(activities: seq<Activity>, day: string): int
  {
    if activities == [] then 0
    else
      var n := |activities| - 1;
      KmOn(activities[..n], day) + (if ActiveDay(activities[n]) == day then Km(activities[n]) else 0)
  }

  /** What the tally loop keeps: one entry per day met so far, holding that day's kilometres. */
  predicate Tallied(activities: seq<Activity>, result: map<string, int>)
  {
    && result.Keys == ActiveDaysOf(activities)
    && forall day :: day in result ==> result[day] == KmOn(activities, day)
  }

  /** A day no activity falls on has no kilometres. */
  lemma {:induction false} KmOnAbsent(activities: seq<Activity>, day: string)
    requires day !in ActiveDaysOf(activities)
    ensures KmOn(activities, day) == 0
  {
    if activities != [] {
      var n := |activities| - 1;
      assert ActiveDay(activities[n]) in ActiveDaysOf(activities);
      assert ActiveDaysOf(activities[..n]) <= ActiveDaysOf(activities) by {
        forall j | 0 <= j < n
          ensures ActiveDay(activities[..n][j]) in ActiveDaysOf(activities)
        {
          assert activities[..n][j] == activities[j];
        }
      }
      KmOnAbsent(activities[..n], day);
    }
  }

  lemma TalliedStep(activities: seq<Activity>, i: nat, result: map<string, int>)
    requires i < |activities| && Tallied(activities[..i], result)
    ensures Tallied(activities[..i + 1], AddKm(result, ActiveDay(activities[i]), Km(activities[i])))
  {
    var day := ActiveDay(activities[i]);
    var next := AddKm(result, day, Km(activities[i]));
    assert activities[..i + 1][..i] == activities[..i];
    forall d | d in next
      ensures next[d] == KmOn(activities[..i + 1], d)
    {
      if d == day && day !in result {
        KmOnAbsent(activities[..i], day);
      }
    }
    assert ActiveDaysOf(activities[..i + 1]) == ActiveDaysOf(activities[..i]) + {day} by {
      assert forall j :: 0 <= j < i ==> activities[..i + 1][j] == activities[..i][j];
      assert activities[..i + 1][i] == activities[i];
    }
  }

  /** The tally loop: `result[date] += int(activity.Distance / 1000)`. */
  method TallyActiveDays(activities: seq<Activity>) returns (result: map<string, int>)
    ensures result.Keys == ActiveDaysOf(activities)
    ensures forall day :: day in result ==> result[day] == KmOn(activities, day)
  {
    result := map[];
    for i := 0 to |activities|
      invariant Tallied(activities[..i], result)
    {
      TalliedStep(activities, i, result);
      result := AddKm(result, ActiveDay(activities[i]), Km(activities[i]));
    }
    assert activities[..|activities|] == activities;
  }

  /** `GetActivitiesByActivityTypeGroupByActiveDays`: the kilometres per day of the selected activities. */
  method ActiveDaysByType(activities: seq<Activity>, types: seq<ActivityType>) returns (result: map<string, int>)
    ensures result.Keys == ActiveDaysOf(Keep(activities, Selector(types)))
    ensures forall day :: day in result ==> result[day] == KmOn(Keep(activities, Selector(types)), day)
  {
    var filtered := FilterActivitiesByType(activities, types);
    result := TallyActiveDays(filtered);
  }

  /** `GetActivitiesByActivityTypeByYearGroupByActiveDays`: the same, after the year filter. */
  method ActiveDaysByYearAndType(activities: seq<Activity>, year: Option<int>, types: seq<ActivityType>)
    returns (result: map<string, int>)
    requires year.Some? ==> LongEnough(activities, 4)
    ensures var inYear := if year.None? then activities else Keep(activities, InYear(year.value));
      && result.Keys == ActiveDaysOf(Keep(inYear, Selector(types)))
      && forall day :: day in result ==> result[day] == KmOn(Keep(inYear, Selector(types)), day)
  {
    var filtered := FilterActivitiesByYear(activities, year);
    filtered := FilterActivitiesByType(filtered, types);
    result := TallyActiveDays(filtered);
  }

  /** No activity with a negative distance, no day with negative kilometres. */
  lemma {:induction false} KmOnNonNegative(activities: seq<Activity>, day: string)
    requires forall i :: 0 <= i < |activities| ==> activities[i].distance >= 0.0
    ensures KmOn(activities, day) >= 0
  {
    if activities != [] {
      KmOnNonNegative(activities[..|activities| - 1], day);
    }
  }

  // ---------------------------------------------------------------- minKey / maxKey

  /**
   * `minKey`: walking the keys, keep the first one met and every smaller one after it. When "" is not
   * a key this is the least key; an empty map gives "".
   */
  method MinKey<V>(m: map<string, V>) returns (least: string)
    ensures m == map[] ==> least == ""
    ensures m != map[] && "" !in m ==> |m.Keys| > 0 && least == KeyOrder(m.Keys)[0]
  {
    least := "";
    var rest := m.Keys;
    while rest != {}
      invariant rest <= m.Keys
      invariant rest == m.Keys ==> least == ""
      invariant rest != m.Keys && "" !in m ==> least in m && forall k :: k in m && k !in rest ==> LexLe(least, k)
      decreases |rest|
    {
      var k :| k in rest;
      if least == "" || LexLess(k, least) {
        forall j | j in m && j !in rest && "" !in m
          ensures LexLe(k, j)
        {
          if least != "" {
            LexLeTransitive(k, least, j);
          }
        }
        least := k;
      } else {
        LexLessTrichotomy(k, least);
      }
      rest := rest - {k};
    }
    if m != map[] && "" !in m {
      assert m.Keys != {};
      LeastIsFirst(KeyOrder(m.Keys), m.Keys, least);
    }
  }

  /** `maxKey`: the same walk keeping greater keys; the greatest key, or "" for an empty map. */
  method MaxKey<V>(m: map<string, V>) returns (greatest: string)
    ensures m == map[] ==> greatest == ""
    ensures m != map[] && "" !in m ==> |m.Keys| > 0 && greatest == KeyOrder(m.Keys)[|m.Keys| - 1]
  {
    greatest := "";
    var rest := m.Keys;
    while rest != {}
      invariant rest <= m.Keys
      invariant rest == m.Keys ==> greatest == ""
      invariant rest != m.Keys && "" !in m ==> greatest in m && forall k :: k in m && k !in rest ==> LexLe(k, greatest)
      decreases |rest|
    {
      var k :| k in rest;
      if greatest == "" || LexLess(greatest, k) {
        forall j | j in m && j !in rest && "" !in m
          ensures LexLe(j, k)
        {
          if greatest != "" {
            LexLeTransitive(j, greatest, k);
          }
        }
        greatest := k;
      } else {
        LexLessTrichotomy(k, greatest);
      }
      rest := rest - {k};
    }
    if m != map[] && "" !in m {
      assert m.Keys != {};
      GreatestIsLast(KeyOrder(m.Keys), m.Keys, greatest);
    }
  }

  /** The first key of the key order is the least key and the last the greatest. */
  lemma KeyOrderEnds(s: set<string>)
    requires s != {}
    ensures var keys := KeyOrder(s);
      && |keys| > 0 && keys[0] in s && keys[|keys| - 1] in s
      && forall k :: k in s ==> LexLe(keys[0], k) && LexLe(k, keys[|keys| - 1])
  {
    var keys := KeyOrder(s);
    var x :| x in s;
    assert x in keys;
    forall k | k in s
      ensures LexLe(keys[0], k) && LexLe(k, keys[|keys| - 1])
    {
      var p := PositionOf(keys, k);
    }
  }

  /** The least key is the first of the key order. */
  lemma LeastIsFirst(keys: seq<string>, s: set<string>, least: string)
    requires IsKeyOrder(keys, s) && least in s && forall k :: k in s ==> LexLe(least, k)
    ensures |keys| > 0 && keys[0] == least
  {
    var p := PositionOf(keys, least);
    KeyOrderIndex(keys, s, p, 0);
  }

  /** The greatest key is the last of the key order. */
  lemma GreatestIsLast(keys: seq<string>, s: set<string>, greatest: string)
    requires IsKeyOrder(keys, s) && greatest in s && forall k :: k in s ==> LexLe(k, greatest)
    ensures |keys| > 0 && keys[|keys| - 1] == greatest
  {
    var p := PositionOf(keys, greatest);
    KeyOrderIndex(keys, s, |keys| - 1, p);
  }

  // ---------------------------------------------------------------- groupActivitiesByYear

  /** `strconv.Atoi(key)` with the error dropped. */
  function YearNumber(key: string): int
  {
    match Atoi(key)
    case Ok(v) => v
    case Err(_) => 0
  }

  lemma YearNumberOfDigits(key: string)
    requires |key| == 4 && AllDigits(key)
    ensures YearNumber(key) == DigitsValue(key)
  {
    DigitsValueBound(key);
    assert Pow10(4) == 10000;
  }

  /** `strconv.Itoa(year)` for `lo <= year < hi`. */
  function YearRange(lo: int, hi: int): set<string>
  {
    set y | lo <= y < hi :: IntToString(y)
  }

  lemma YearRangeStep(lo: int, y: int)
    requires lo <= y
    ensures YearRange(lo, y + 1) == YearRange(lo, y) + {IntToString(y)}
  {
    assert IntToString(y) in YearRange(lo, y + 1);
  }

  /** The years filled in: every year from the first year key to the last, when there is any activity. */
  ghost function FilledYears(activities: seq<Activity>): set<string>
    requires LongEnough(activities, 4)
  {
    if activities == [] then {}
    else
      var keys := KeyOrder(KeysOf(activities, 0, 4));
      if |keys| == 0 then {} else YearRange(YearNumber(keys[0]), YearNumber(keys[|keys| - 1]) + 1)
  }

  /** The loop `for year := minYear; year <= maxYear; year++` filling in missing years. */
  method FillYears(activities: seq<Activity>, byYear: map<string, seq<Activity>>, minYear: int, maxYear: int)
    returns (filled: map<string, seq<Activity>>)
    requires LongEnough(activities, 4) && Filled(activities, 0, 4, {}, byYear)
    ensures Filled(activities, 0, 4, YearRange(minYear, maxYear + 1), filled)
  {
    filled := byYear;
    var year := minYear;
    assert YearRange(minYear, minYear) == {};
    while year <= maxYear
      invariant minYear <= year && (year <= maxYear + 1 || year == minYear)
      invariant Filled(activities, 0, 4, YearRange(minYear, year), filled)
      decreases maxYear - year
    {
      var yearStr := IntToString(year);
      FilledStep(activities, 0, 4, YearRange(minYear, year), yearStr, filled);
      YearRangeStep(minYear, year);
      if yearStr !in filled {
        filled := filled[yearStr := []];
      }
      year := year + 1;
    }
    if year == minYear {
      assert YearRange(minYear, maxYear + 1) == {};
    }
  }

  /** `strconv.Atoi` of the least and of the greatest year key. */
  method YearBounds(activities: seq<Activity>, byYear: map<string, seq<Activity>>) returns (minYear: int, maxYear: int)
    requires LongEnough(activities, 4) && byYear.Keys == KeysOf(activities, 0, 4) && |byYear| > 0
    ensures FilledYears(activities) == YearRange(minYear, maxYear + 1)
  {
    NoEmptyYearKey(activities);
    assert activities != [];
    var lowKey := MinKey(byYear);
    var highKey := MaxKey(byYear);
    minYear := YearNumber(lowKey);
    maxYear := YearNumber(highKey);
  }

  /** The `len(activitiesByYear) > 0` branch: fill in every year from the least key's to the greatest key's. */
  method FillBetweenKeys(activities: seq<Activity>, byYear: map<string, seq<Activity>>) returns (filled: map<string, seq<Activity>>)
    requires LongEnough(activities, 4) && Filled(activities, 0, 4, {}, byYear) && |byYear| > 0
    ensures Filled(activities, 0, 4, FilledYears(activities), filled)
  {
    assert byYear.Keys == KeysOf(activities, 0, 4);
    var minYear, maxYear := YearBounds(activities, byYear);
    filled := FillYears(activities, byYear, minYear, maxYear);
  }

  /**
   * `groupActivitiesByYear`: the activities under `StartDateLocal[:4]`; when there is any, an empty
   * list for every year from the least key's to the greatest key's that has none.
   */
  method GroupActivitiesByYear(activities: seq<Activity>) returns (byYear: map<string, seq<Activity>>)
    requires LongEnough(activities, 4)
    ensures byYear.Keys == KeysOf(activities, 0, 4) + FilledYears(activities)
    ensures forall k :: k in byYear ==> byYear[k] == Bucket(activities, 0, 4, k)
  {
    byYear := GroupBy(activities, 0, 4);
    if |byYear| > 0 {
      byYear := FillBetweenKeys(activities, byYear);
    } else {
    }
  }

  /** Year keys are four characters, so "" is never one. */
  lemma NoEmptyYearKey(activities: seq<Activity>)
    requires LongEnough(activities, 4)
    ensures "" !in KeysOf(activities, 0, 4)
  {
  }

  /** A filled-in year holds no activity. */
  lemma FilledYearIsEmpty(activities: seq<Activity>, byYear: map<string, seq<Activity>>, k: string)
    requires LongEnough(activities, 4)
    requires forall key :: key in byYear ==> byYear[key] == Bucket(activities, 0, 4, key)
    requires k in byYear && k !in KeysOf(activities, 0, 4)
    ensures byYear[k] == []
  {
    BucketOfOtherKey(activities, 0, 4, k);
  }

  /** With four-digit years, every year key of the key order is four digits. */
  lemma YearKeysAreDigits(activities: seq<Activity>, keys: seq<string>)
    requires LongEnough(activities, 4)
    requires forall j :: 0 <= j < |activities| ==> AllDigits(DateKey(activities[j], 0, 4))
    requires forall j :: 0 <= j < |keys| ==> keys[j] in KeysOf(activities, 0, 4)
    ensures forall j :: 0 <= j < |keys| ==> |keys[j]| == 4 && AllDigits(keys[j])
  {
    forall j | 0 <= j < |keys|
      ensures |keys[j]| == 4 && AllDigits(keys[j])
    {
      var q :| 0 <= q < |activities| && DateKey(activities[q], 0, 4) == keys[j];
    }
  }

  /**
   * When every activity's year is four digits, the filled range spans the years of all activities:
   * byte order on the keys is the numeric order of the years.
   */
  lemma YearsWithinRange(activities: seq<Activity>, i: nat)
    requires LongEnough(activities, 4) && i < |activities|
    requires forall j :: 0 <= j < |activities| ==> AllDigits(DateKey(activities[j], 0, 4))
    ensures var keys := KeyOrder(KeysOf(activities, 0, 4));
      |keys| > 0 && YearNumber(keys[0]) <= YearOf(activities[i]) <= YearNumber(keys[|keys| - 1])
  {
    var s := KeysOf(activities, 0, 4);
    var keys := KeyOrder(s);
    var k := DateKey(activities[i], 0, 4);
    assert k in s;
    var p := PositionOf(keys, k);
    YearKeysAreDigits(activities, keys);
    YearNumberOfDigits(k);
    YearOfDigits(activities[i]);
    YearNumberOfDigits(keys[0]);
    YearNumberOfDigits(keys[|keys| - 1]);
    if p > 0 {
      DigitsLexOrder(keys[0], k);
    }
    if p < |keys| - 1 {
      DigitsLexOrder(k, keys[|keys| - 1]);
    }
  }

  /** With four-digit years, every year from the first activity's to the last activity's has its key. */
  lemma EveryYearBetween(activities: seq<Activity>, i: nat, j: nat, y: int)
    requires LongEnough(activities, 4) && i < |activities| && j < |activities|
    requires forall q :: 0 <= q < |activities| ==> AllDigits(DateKey(activities[q], 0, 4))
    requires YearOf(activities[i]) <= y <= YearOf(activities[j])
    ensures IntToString(y) in FilledYears(activities)
  {
    YearsWithinRange(activities, i);
    YearsWithinRange(activities, j);
  }

  // ---------------------------------------------------------------- filterByActivityTypes

  /** An activity whose type names one of `business.ActivityTypes`. */
  predicate KnownType(a: Activity)
  {
    IsKnownTypeName(a.activityType)
  }

  lemma KnownTypeListed(name: string)
    ensures IsKnownTypeName(name) <==> exists j :: 0 <= j < |AllTypes| && TypeName(AllTypes[j]) == name
  {
    if IsKnownTypeName(name) {
      var t := LookupType(name).value;
      assert TypeName(AllTypes[Ordinal(t)]) == name;
    }
    forall j | 0 <= j < |AllTypes| && TypeName(AllTypes[j]) == name
      ensures IsKnownTypeName(name)
    {
      LookupTypeName(AllTypes[j]);
    }
  }

  /** The inner loop over `business.ActivityTypes`, left at the first name that matches. */
  method IsListedType(name: string) returns (found: bool)
    ensures found <==> IsKnownTypeName(name)
  {
    found := false;
    var j := 0;
    while j < |AllTypes| && !found
      invariant 0 <= j <= |AllTypes|
      invariant found <==> exists k :: 0 <= k < j && TypeName(AllTypes[k]) == name
    {
      if name == TypeName(AllTypes[j]) {
        found := true;
      }
      j := j + 1;
    }
    KnownTypeListed(name);
  }

  /** `filterByActivityTypes`: the activities whose type is a known type name, in input order. */
  method FilterByActivityTypes(activities: seq<Activity>) returns (filtered: seq<Activity>)
    ensures filtered == Keep(activities, KnownType)
  {
    filtered := [];
    for i := 0 to |activities|
      invariant filtered == Keep(activities[..i], KnownType)
    {
      var known := IsListedType(activities[i].activityType);
      KeepStep(activities, i, KnownType);
      if known {
        filtered := filtered + [activities[i]];
      }
    }
    assert activities[..|activities|] == activities;
  }

  /** Exactly the activities of a known type are kept, as often as they occur. */
  lemma KnownTypesKept(activities: seq<Activity>, a: Activity)
    ensures multiset(Keep(activities, KnownType))[a] == if KnownType(a) then multiset(activities)[a] else 0
  {
    KeepCount(activities, KnownType, a);
  }
}
